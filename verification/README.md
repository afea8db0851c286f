# racetify-api in Dafny

A verification project for the parts of racetify-api, a Go service for running
events, whose correctness rests on reasoning over many rows, many steps or many
bytes. `dafny verify dfyconfig.toml` checks all of it.

## What is modelled

**Registration.** An event has races, teams and participants. A bulk import
plans every row against the stored tables (`ImportPlan` says what the plan is,
`ImportPlanner` is the planner as it runs and is proved to compute it;
`ImportMatching` and `ImportSeating` say what the plan means, row by row), then
writes teams and rows one by one (`ImportApply`). `ImportGuarantees`,
`ImportTracking`, `ImportSafety` and `ImportSeats` prove what plans and writes
keep; `ImportLegs` exactly which imports fail, `ImportFields` what the others
leave in each field; `ImportCounts` and `ImportTeams` exactly which of those
that succeed keep the team rules; `ImportRefinement` that loading only the rows
that could match is enough; `ImportReplay` when a second import of the same file
changes nothing. `LegSwapTrap` holds a file whose import fails, `ImportTraps`
one that overfills a team and `MixedTrap` one that fills a mixed team with men;
`SmallFiles` helps to follow them. `Columns` is what the tables' number columns
keep. `EventCases` says what each use case does to the tables, `EventAnswers`
what that means for each request, `EventRules` and `EventRuns` which runs of use
cases and imports keep the team rules, and `EventStore` is the service over its
tables, with the loops the code has.

**Sessions.** Refresh tokens rotate within a family, with a grace window, reuse
detection and logout. `RefreshFamilies` is the service over its token table,
`SessionSafety` what every run keeps. `SignupCodes` is the one-time code of a
sign-up, `SignupRaces` the same with requests that overlap.

**Jobs.** Job rows, one shared list, and any number of enqueuers and workers
that may crash between any two steps: `JobProtocol` (safety), `JobLiveness`,
and `JobWorker`, the loop with the faults it meets.

**Print.** `SheetLayout` (grid and crop marks), `PrintOrder`, and `SheetRender`
(files, sheets and the layers of one BIB).

**Bytes.** `Pbkdf2` against section 5.2 of RFC 8018 over any pseudorandom
function, `Codecs` and `Passwords` for the stored hash, `FontTables` for the two
readers of an sfnt table directory, and `Paging` and `Cursors` for keyset
pagination.

## How it is modelled

- A transaction is one atomic step over maps and sequences; the unique
  constraints of the schema are checked by every write, and the deletions that
  cascade in the schema are part of the step. A failed step leaves the state as
  it was.
- Rows the database returns without an order are listed in an arbitrary one, and
  the proofs hold for all of them. Fresh ids, salts, token hashes, clock readings
  and the outcome of I/O are parameters; ids drawn by the code are assumed new.
- The number columns are part of a write: BIBs, legs, team sizes and laps are
  four-byte integers, and a lap length is rounded to hundredths of a kilometre and
  must stay below 10000. The code checks none of this first. So a race can be
  stored with a lap of zero, and the format lock can refuse the format a race was
  created with; `EventRules.SavedAgainIff` and `SentAgainIff` say exactly when.
  `EventState.Valid` therefore asks that a format is one the columns can hold, and
  `EventRuns.RunsKeepFormats` says exactly when all formats stay valid.
- A comment in internal/event/repository.go says a race with participants cannot be
  deleted; the schema deletes them with it, and so does the model.
- Optional pointers are `Option`; an enumeration has one extra value for every
  string Go's type admits beyond the valid ones. Messages of errors and issues
  are left out, their level and field are kept.
- The code documents that a unique violation while applying a plan means a
  concurrent writer. The proofs show this for BIBs, ref_ids and team names, but
  not for legs: two members of a relay team who swap legs are written one after
  the other, and the first write meets the leg the other still holds.
  `LegSwapTrap.LegSwapFails` is such an import, and `ImportLegs.ImportFailsIff`
  says exactly which imports fail, in terms of the plan and the table before.
- An import leaves the member in place whom a rejected row re-registers, though
  the planner had counted them out, so a team can end overfull (`ImportTraps`), or
  full and mixed in name only (`MixedTrap`). No other rule can break.
  `ImportTeams.ImportIsValidIff` says exactly when none does, in terms of the plan
  and the table before; that no rejected row re-registers a current member of its
  own team is enough, and a dry run shows it.
- A lost reset of the attempts of a sign-up code lets the next code be compared a
  sixth time only over a counter that is still alive, below five, and runs out
  first; this condition is exact. Requests that overlap can do it, too: a code read
  before a resend is charged to the fresh counter (`SignupRaces`).
- Automatic induction is switched off in every lemma that has a proof body, so
  each inductive step is written out.
- A logout does not revoke what a token rotated moments before can still buy
  within the grace window; the exact condition is proved.

## Model

| member | source | states |
|---|---|---|
| `ImportPlanner.PlanImport` | internal/participant/import.go:158-256 | For every file, table and set of teams, the planner's maps, in-place row updates and counted-down capacity compute exactly the declarative plan: matching, grouping, seats, teams and issues, row by row |
| `ImportPlanner.PlanTeams` | internal/participant/import.go:260-410 | Pass 2 as a whole equals the declarative plan of the draft pass 1 left |
| `ImportPlanner.SeatGroups` | internal/participant/import.go:285-388 | Looking at the groups in order of first appearance settles exactly the rows of those groups and creates exactly their new teams |
| `ImportPlanner.SeatGroup` | internal/participant/import.go:285-387 | One group: its rows end as declared, no other row changes, and a team is planned exactly when none exists and the group forms |
| `ImportPlanner.SeatRows` | internal/participant/import.go:332-361 | Seats go in file order to rows whose leg nobody staying holds and no earlier row asked for, while places last; legs and genders in use are tracked exactly |
| `ImportPlanner.StayingMembers` | internal/participant/import.go:318-330 | The members that stay are those no row of the group re-registers |
| `ImportPlanner.ConfirmGroup` | internal/participant/import.go:362-387 | A clash of genders turns away exactly the seated rows; otherwise they get the team and the first of them the remarks |
| `ImportPlanner.GroupRows` | internal/participant/import.go:268-283 | The groups list exactly the joining rows in file order, the keys in order of first appearance |
| `ImportPlanner.CloseRows` | internal/participant/import.go:392-402 | A row with an error is rejected and loses its team; the new teams still in use are collected |
| `ImportPlanner.JudgeRow` | internal/participant/import.go:179-252 | Pass 1 on one row: screening, then ref_id first and BIB otherwise |
| `ImportPlanner.IndexExisting` | internal/participant/import.go:161-168 | Both lookup maps answer with the last listed participant of a key |
| `ImportPlanner.Counts` | internal/participant/import.go:115-129 | The four counts are the numbers of rows with each action |
| `ImportPlanner.PlannedTeamsAreUsed` | internal/participant/import.go:392-409 | The final filter over planned teams drops nothing: every team a forming group creates is joined by a row that applies |
| `ImportPlanner.WithIssuesIsExact` | internal/participant/import.go:344-361 | Putting issues on listed rows one by one changes each listed row once and no other |
| `ImportPlan.GroupIsExact` | internal/participant/import.go:268-283 | A group holds exactly the rows that join the team, ascending |
| `ImportPlan.JoiningRow` | internal/participant/import.go:285-402 | A row that tries to join applies if and only if its group forms and it has a seat; then it keeps its decision and gets the team, otherwise it is rejected with an error |
| `ImportPlan.JudgeIsSound` | internal/participant/import.go:179-252 | Pass 1 decides every row, in error exactly when it carries an error issue, and names a participant exactly for updates and skips |
| `ImportPlan.CleanIsExact` | internal/participant/import.go:344-361 | A listed row is accepted exactly when nothing keeps it out |
| `ImportMatching.ScreeningIsExact` | internal/participant/import.go:179-213 | Pass 1 goes on with a row if and only if its race is one of the event, it names a team in a team race, its fields break no rule, and no other row of the file has its BIB or its ref_id |
| `ImportMatching.MatchIsExact` | internal/participant/import.go:215-236 | Told from the stored people alone: a row is turned away if and only if its ref_id is one person's and its BIB another's, or its ref_id is nobody's and its BIB that of somebody with a ref_id of their own; otherwise it finds exactly the person who has its ref_id, or who has its BIB when it states no ref_id or one that nobody has |
| `ImportMatching.DecisionIsExact` | internal/participant/import.go:179-252 | Pass 1 rejects exactly the unacceptable and the contradicting rows, updates or skips the one person any other row means, and creates somebody if and only if it means nobody |
| `ImportMatching.BibWithoutRefIsFound` | internal/participant/import.go:227-232 | A row whose BIB belongs to somebody without a ref_id is that person's, and is not rejected |
| `ImportMatching.ErrorsOfPassOne` | internal/participant/import.go:179-240 | The error issues of a row after pass 1 are about exactly the race, team name, first broken field rule, shared BIB, shared ref_id or contradicted BIB that is wrong with it |
| `ImportMatching.RemarksOfPassOne` | internal/participant/import.go:179-251 | The warnings of a row pass 1 accepts: an unknown blood type, a BIB that moves, a person who exists |
| `ImportSeating.StayingIsExact` | internal/participant/import.go:318-330 | A listed member stays if and only if no row that joins the team re-registers them |
| `ImportSeating.StayingCounts` | internal/participant/import.go:318-330 | The number of members the places are counted from is that of the stored members no joining row re-registers |
| `ImportSeating.SeatIsExact` | internal/participant/import.go:332-361 | A joining row gets a seat if and only if nobody who stays and no joining row before it has its leg, and those who stay and the joining rows before it, seated or not, leave a place |
| `ImportSeating.CategoryIsExact` | internal/participant/import.go:293-316 | A stored team keeps its category; a new one takes that of the first joining row that states one |
| `ImportSeating.FormsIsExact` | internal/participant/import.go:285-387 | A group forms if and only if its team is stored or has a valid category, somebody is seated, and those who stay and are seated do not clash with the category |
| `ImportSeating.NewTeamsAreExact` | internal/participant/import.go:376-409 | The new teams are those of the groups that form without a stored team, with the race and the trimmed name of their first row and the category stated |
| `ImportSeating.ErrorsOfPassTwo` | internal/participant/import.go:293-373 | The error issues of pass 2 on a joining row are about exactly the category that cannot be used, the leg that is gone, the places that are, or the genders that clash |
| `ImportSeating.RemarksAreExact` | internal/participant/import.go:362-387 | Of a group that forms the first seated row is told that a gender is still missing, and that places are left |
| `ImportGuarantees.EveryRowIsDecided` | internal/participant/import.go:28-36 | Every row of every plan ends with one decision, and is an error if and only if it carries an error issue |
| `ImportGuarantees.PlanCountsSum` | internal/participant/import.go:115-129 | Created, updated, skipped and rejected rows add up to the rows of the file |
| `ImportGuarantees.AppliedRowResolves` | internal/participant/import.go:378-402 | An applied row of a team race resolves to a stored or planned team of its own race; any other applied row has no team |
| `ImportGuarantees.PlannedKeysAreNew` | internal/participant/import.go:293-384 | Planned teams have distinct keys, none of them a stored team's, and a valid category |
| `ImportGuarantees.PlannedTeamsAreJoined` | internal/participant/import.go:390-409 | Each planned team is joined by a row that applies |
| `ImportGuarantees.GroupFitsSize` | internal/participant/import.go:338-361 | Staying members plus accepted rows never exceed the team size, and nobody is accepted when the staying members fill it |
| `ImportGuarantees.SeatedLegsDiffer` | internal/participant/import.go:345-352 | Accepted rows of one team ask for different legs |
| `ImportGuarantees.SeatedLegIsNew` | internal/participant/import.go:332-352 | No staying member holds an accepted row's leg |
| `ImportGuarantees.GroupHasOneRace` | internal/participant/import.go:147-149 | Rows with one team key register into one race, whatever the team's name holds |
| `ImportGuarantees.JudgedRowIsValid` | internal/participant/import.go:187-213 | A row pass 1 accepts passed every field rule and shares its BIB and ref_id with no row of the file |
| `Text.TeamKeyIsInjective` | internal/participant/import.go:147-149 | A team key determines the race and the folded name |
| `ImportTracking.WritesAreTracked` | internal/participant/import_service.go:128-187 | After any number of rows the table is exactly the stored one overwritten by each participant's last writer, with distinct BIBs and ref_ids, or the import stopped on a leg |
| `ImportTracking.StepIsTracked` | internal/participant/import_service.go:128-187 | One more write keeps the table tracked and its keys distinct |
| `ImportTracking.NextWriteIsFree` | internal/participant/import_service.go:161-186 | At each write nobody but its target holds its BIB or ref_id |
| `ImportSafety.EveryWriteKeepsKeys` | internal/participant/import_service.go:109-189 | Every single write of an import planned on the current table keeps BIBs and ref_ids distinct; the only constraint it can stop on is a leg still held |
| `ImportSafety.PlanClaims` | internal/participant/import.go:159-252 | Rows that apply claim BIBs and ref_ids nobody but their own target has, and no two of them the same |
| `ImportSafety.TeamsGoIn` | internal/participant/import_service.go:116-126 | Inserting the planned teams never violates the unique team name and adds exactly them |
| `ImportSafety.AcceptedRowsDiffer` | internal/participant/import.go:169-209 | Two rows pass 1 accepts share neither BIB nor ref_id |
| `ImportApply.RewritingChangesNothing` | internal/participant/import_service.go:161-183 | Writing a row over what the same row created or updated changes nothing |
| `ImportApply.BlankCellsKeepFields` | internal/participant/import_service.go:161-183 | Blank cells leave the stored fields and the status alone |
| `ImportFields.FieldsAreLastSaid` | internal/participant/import_service.go:128-187 | After an import each of the eight fields a row may leave blank, ref_id included, holds what the last applied row of that person that fills it in says, and what was stored, or nothing for a new person, if none does |
| `ImportFields.NamesAreLastSaid` | internal/participant/import_service.go:128-187 | The first name is that of the last applied row of the person; the status of a stored person is never touched and that of a new one is registered |
| `ImportFields.PlaceIsLastSaid` | internal/participant/import_service.go:128-187 | Race, team, leg, BIB and gender are those of the last applied row of the person, the leg in a relay only, a new team under its new id |
| `ImportCounts.SizeIsExact` | internal/participant/import_service.go:128-187 | A team's size after an import is exactly the stored members no applied row writes plus the people whose last applied row puts them in it |
| `ImportCounts.GendersAreExact` | internal/participant/import_service.go:128-187 | A team has a gender after an import exactly when such a remaining member has it or such a row states it |
| `ImportTeams.ArrivalsAreSeated` | internal/participant/import.go:318-361 | The people whose last applied row puts them in a team are exactly those whose last applied row is a seated row of its group |
| `ImportTeams.LegsStayDistinct` | internal/participant/import_service.go:161-186 | After every import that succeeds from a valid table no two members of a team hold one leg, members left behind or not |
| `ImportTeams.MembersSuit` | internal/participant/import.go:285-402 | After every import every member of a team, left behind or not, has its race, a leg its race allows and its category's gender |
| `ImportTeams.TeamIsFineIff` | internal/participant/import.go:318-387 | A team keeps all its rules after an import if and only if its head counts fit: no more people than its size, and both genders if it is mixed and full |
| `ImportTeams.ImportIsValidIff` | internal/participant/import_service.go:109-189 | An import that succeeds leaves a valid table if and only if every team's head counts, read off the plan and the table before, fit |
| `ImportTeams.MixedStaysMixed` | internal/participant/import.go:366-373 | A mixed team that ends full has both genders when nobody was left behind |
| `ImportTeams.ImportKeepsTheRules` | internal/participant/import_service.go:109-189 | Leaving nobody behind suffices: then the head counts fit and every rule and unique key is kept |
| `ImportLegs.ImportFailsIff` | internal/participant/import_service.go:109-189 | With no concurrent writer the writes of a plan, made after its rows' BIBs were looked up, fail if and only if some applied row takes a leg of a stored team that another stored participant holds and no applied row before it writes; the error is always the taken leg |
| `EventRuns.ImportFails` | internal/participant/import_service.go:42-99 | A whole import fails if and only if the file is empty or over 5000 rows, or a BIB of it is above 2147483647 (a dry run too), or it is no dry run and a row takes a leg still held |
| `LegSwapTrap.LegSwapFails` | internal/participant/import_service.go:109-112 | A valid table and a plan without errors, two members of a relay team of two swapping legs, whose import fails though nobody interferes |
| `ImportTraps.RejectedMemberOverfillsTeam` | internal/participant/import.go:318-361 | A file whose import succeeds and leaves three members in a team of two: a rejected row re-registered a current member of its own team |
| `MixedTrap.RejectedMemberUnmixesTeam` | internal/participant/import.go:318-373 | A file whose import succeeds, keeps a mixed team's size and leaves it full of men: the row of the man already in it was rejected for asking for the newcomer's leg |
| `ImportRefinement.LoadedRowsSuffice` | internal/participant/repository.go:468-491 | Planning against only the participants an import loads gives exactly the plan of the whole table, in whatever order either is listed |
| `ImportReplay.ReplaySkipsEveryRow` | internal/participant/import.go:215-251 | After an import without errors, planning the same rows again in skip mode skips every row, and then creates no team, if and only if no row without a ref_id lost its participant to a later row |
| `ImportReplay.SkipModeReplays` | internal/participant/import.go:242-251 | When the first run was itself in skip mode the replay always skips every row |
| `ImportReplay.AppliedRowIsFound` | internal/participant/import.go:215-236 | An applied row is matched again on the resulting table unless it has no ref_id and a later row took its participant |
| `ImportReplay.SharedTarget` | internal/participant/import.go:215-236 | When two applied rows target one participant, at most one carries a ref_id, and that one matched by it |
| `TeamRules.CheckTeamComposition` | internal/participant/rules.go:124-147 | The loops over genders compute the category's rule |
| `TeamRules.ClashIsFinal` | internal/participant/rules.go:119-147 | A clash in a single-gender team is mended by no further member; in a mixed team it means the team is full |
| `TeamRules.ValidateIsExact` | internal/participant/rules.go:75-117 | The field rules name the first one broken, in their order, and none if and only if all hold |
| `TeamRules.EmailIsExact` | internal/participant/rules.go:68-73 | An address is accepted if and only if it has no blank, at most 254 characters, something before its first at sign, and a dot somewhere behind that |
| `TeamRules.ComposeIsExact` | internal/participant/rules.go:119-147 | A male or female team clashes if and only if somebody has another gender; a mixed one lacking a gender clashes if it is full and is incomplete otherwise |
| `TeamRules.FormatIsExact` | internal/event/event.go:151-200 | A format is valid if and only if it is an individual standard race, or a team relay with a size of at least two, or a loop, run alone or by teams of at least two, with a lap length and a target or time limit |
| `TeamRules.NormalizeFormatIsExact` | internal/event/event.go:125-147 | Cleaning up fills in blanks and keeps a setting exactly where the format has a use for it |
| `Text.TrimIsExact` | internal/participant/participant.go:198 | A trimmed text is what is left between white space at both ends |
| `Text.SameTeamIff` | internal/participant/import.go:147-149 | Two names are the same team's if and only if, trimmed, they differ in the case of letters only |
| `InputRules.NormalizeIsExact` | internal/participant/rules.go:29-66 | Every text is trimmed, or gone when blank; a known blood type becomes canonical, an unknown one goes and is reported; a missing status is registered; nothing else changes |
| `InputRules.CompactIsExact` | internal/participant/participant.go:162 | For blood types, white space goes and small letters become capitals, letter by letter |
| `InputRules.NormalizeIsIdempotent` | internal/participant/rules.go:44-66 | Normalising an input twice changes nothing more and complains of nothing |
| `InputRules.BloodTypeIsExact` | internal/participant/participant.go:161-187 | A text is recognised as a blood type exactly when it spells a group, perhaps RH, and a sign word |
| `InputRules.BloodTypeIsStable` | internal/participant/participant.go:158-187 | A canonical blood type is its own canonical form |
| `EventStore.Store.CheckTeamJoin` | internal/participant/service.go:78-119 | Member by member, in any listing order: refuses exactly a wrong team, a held leg, a full team or a gender clash, in that order |
| `EventStore.Store.CreateParticipant` | internal/participant/service.go:122-162 | Does to the tables exactly what the create use case says, or nothing and the failure |
| `EventStore.Store.UpdateParticipant` | internal/participant/service.go:205-308 | Patches the stored person, drops the team on a race move, is lenient only with a person who had no team, and writes all or nothing |
| `EventStore.Store.DeleteParticipants` | internal/participant/service.go:332-350 | Removes exactly the selected people and counts those removed |
| `EventStore.Store.ChangeTeam` | internal/participant/service.go:515-567 | Sets a new name or category, or both, and checks a category that is sent against all the members |
| `EventStore.Store.ChangeRace` | internal/event/service.go:400-456 | Changes a format only while nobody is registered in the race |
| `EventState.WriteIsExact` | internal/participant/repository.go:95-151 | A participant write is accepted if and only if its numbers fit their columns and the table after it has no BIB, no ref_id and no leg of a team twice, and it rewrites that one row only |
| `EventRules.CreateOutOfRangeIff` | migrations/0007_participants.up.sql:17 | A new person who passes every rule is refused by the table's columns if and only if the BIB is above 2147483647 |
| `EventRules.UpdateOutOfRangeIff` | migrations/0012_team_loop_formats.up.sql:84 | An update that passes every rule is refused by the table's columns if and only if the BIB is above 2147483647, or the person stays without a team in a team race, where no rule looks at the leg, and the leg is out of range |
| `EventStore.Store.FindForImport` | internal/participant/repository.go:468-491 | Lists exactly the participants any row could match by BIB or ref_id |
| `EventStore.Store.ListAllTeams` | internal/participant/repository.go:493-529 | Lists every team with exactly its current members |
| `EventStore.Store.ReadRows` | internal/participant/import_service.go:56-71 | Fills in the default race, normalises each row and collects the keys to look up |
| `EventStore.Store.ExecutePlan` | internal/participant/import_service.go:113-189 | Writes teams and accepted rows one by one and stops at the first failed write |
| `EventStore.Store.ImportFile` | internal/participant/import_service.go:38-107 | One request: refused when empty or over 5000 rows, nothing written on a dry run or a failure, otherwise exactly the plan's writes, with counts that match the plan |
| `EventAnswers.CreateSucceedsIff` | internal/participant/service.go:122-162 | A person is created if and only if the blood type is known, the race is one of the event, the cleaned-up fields break no rule, the team takes them, and the columns and unique keys do |
| `EventAnswers.CreateStores` | internal/participant/service.go:122-162 | A created person holds each field that was sent, trimmed, gone when blank, the blood type canonical; nobody and nothing else changes |
| `EventAnswers.UpdateSucceedsIff` | internal/participant/service.go:205-308 | An update succeeds if and only if what was sent over what is stored would pass as a new person's, their own row aside; who had no team may stay without one |
| `EventAnswers.UpdateStores` | internal/participant/service.go:205-308 | After an update each field sent is the stored one, trimmed, or gone when blank; leg 0 clears the leg; a field not sent keeps its cleaned-up value; a race move drops the team and leg that are not sent; nobody and nothing else changes |
| `EventAnswers.JoinAnswers` | internal/participant/service.go:78-119 | Why a team does not take somebody, told from its members: none of the race, a held leg, full, a gender its category does not take, in that order |
| `EventAnswers.RefusalIsFirst` | internal/participant/service.go:122-158 | An input that is not taken is answered with the first thing wrong with it: blood type, race, the fields in their order, the team |
| `EventAnswers.TableRefuses` | internal/participant/repository.go:95-151 | A write the table refuses is answered with a number out of range, a taken BIB, ref_id or leg, in that order |
| `EventAnswers.DeleteTakesSelected` | internal/participant/service.go:332-350 | A deletion takes exactly the selected people and changes nobody else |
| `EventAnswers.StatusIsSet` | internal/participant/service.go:354-375 | The selected people get the status, registered or did-not-start only, and nothing else of anybody changes |
| `EventAnswers.TeamIsCreated` | internal/participant/service.go:482-511 | A team is created if and only if its race is a team race, its name is not blank and free in the race, and its category is one of three; it is stored under the trimmed name |
| `EventAnswers.TeamIsChanged` | internal/participant/service.go:515-567 | A team is changed if and only if its new name and category would do for a new team and its members suit a category that is sent; exactly those two change |
| `EventAnswers.TeamIsDeleted` | internal/participant/service.go:571-592 | The team goes; its members go with it, or stay without team and leg; nobody and nothing else changes |
| `EventAnswers.RaceIsCreated` | internal/event/service.go:278-328 | A created race holds the settings sent that its format has a use for, its lap to the hundredth |
| `EventAnswers.RaceIsChanged` | internal/event/service.go:367-456 | A changed race holds the same of what was sent over what it held; no other race changes |
| `EventAnswers.RaceIsDeleted` | internal/event/service.go:458-465 | Deleting a race takes the race, its teams and its people, and nothing else |
| `EventRules.JoinIsExact` | internal/participant/service.go:78-119 | A person with valid fields is let into a team if and only if the team's rules hold with them in it |
| `EventRules.PutPersonKeepsRules` | internal/participant/service.go:122-308 | Writing a person their team takes keeps every team's rules, the old team's too |
| `EventRules.UpdatePersonKeepsRules` | internal/participant/service.go:205-308 | Every update that succeeds keeps the rules |
| `EventRules.UpdateIsIdempotent` | internal/participant/service.go:205-308 | An update that succeeded can be repeated: it succeeds again and changes nothing more |
| `EventRules.LeftWithoutTeamIff` | internal/participant/service.go:267-272 | A successful update leaves somebody in a team race without a team if and only if they had none before and the patch gives none, whatever race they were in |
| `EventRules.MovesInWithoutTeam` | internal/participant/service.go:267-272 | Somebody of an individual race can be moved into a team race without joining a team, which the comment on leniency does not foresee |
| `EventRules.SetStatusKeepsRules` | internal/participant/service.go:354-375 | Setting a status on any selection of people keeps the rules |
| `EventRules.CreateTeamKeepsRules` | internal/participant/service.go:482-511 | Creating a team keeps every team's rules and the unique names |
| `EventRules.CreateTeamUndone` | internal/participant/service.go:482-592 | Deleting a team just created, either way, leaves all tables as they were |
| `EventRules.UpdateTeamKeepsRules` | internal/participant/service.go:515-567 | Every team change that succeeds keeps the rules |
| `EventRules.DeleteTeamKeepsRules` | internal/participant/service.go:571-592 | Deleting a team either way keeps the rules |
| `EventRules.KeptMembersStay` | internal/participant/service.go:569-592 | Keeping the members keeps everybody registered and changes nobody else |
| `EventRules.CreateRaceUndone` | internal/event/service.go:278-465 | Deleting a race just created leaves all tables as they were |
| `EventRules.CreateRaceSucceedsIff` | migrations/0012_team_loop_formats.up.sql:25-35 | A race is created if and only if its cleaned-up format is valid, its team size and laps are four-byte integers, and its lap is below 9999.995 km |
| `EventRules.SavedAgainIff` | migrations/0012_team_loop_formats.up.sql:33 | A stored format is valid, and an empty change to it accepted, if and only if the lap it was created with is at least five metres; otherwise even an empty change is refused |
| `EventRules.SentAgainIff` | internal/event/service.go:428-443 | Sending a race the format it was created with goes unnoticed if and only if nobody is registered in it or its lap is a whole number of hundredths; otherwise the lock refuses it |
| `EventRules.FineLapLocks` | internal/event/service.go:428-443 | With anybody registered, a race created with a lap of 1.234 km refuses that same format as a change |
| `EventRules.TinyLapSticks` | internal/event/service.go:428-431 | A lap of four metres passes every check, is stored as zero, and from then on no change that keeps it is accepted |
| `EventRules.UpdateRaceKeepsRules` | internal/event/service.go:428-443 | A format change is noticed by no team and leaves a format its columns can hold |
| `EventRules.DeleteRaceKeepsRules` | internal/event/service.go:458-465 | Deleting a race with its teams and people keeps the rules |
| `EventRules.DeletedRaceTakesItsOwn` | internal/event/service.go:458-465 | From a valid table the cascade takes exactly the people registered in the race and changes nobody else |
| `EventStore.ReportIsExact` | internal/participant/import_service.go:73-107 | The counts an import reports are the numbers of its rows with each action, and of its new teams |
| `EventRuns.RequestAnswers` | internal/participant/import_service.go:42-67 | A request is refused for being empty, for more than 5000 rows, or for a BIB above 2147483647, and for nothing else |
| `EventRuns.RowIsPrepared` | internal/participant/import_service.go:56-71 | A row is planned as it was sent, its race filled in where it names none, its input cleaned up |
| `EventRuns.ImportKeepsRules` | internal/participant/import_service.go:38-107 | The import of the loaded rows is refused as the request says, or fails exactly when a row takes a leg still held, or ends valid exactly when every team's head counts fit |
| `EventRuns.StepKeepsRules` | internal/participant/service.go:122-592 | Every use case keeps the rules, whether it succeeds or fails; an import keeps them exactly when its head counts fit, as they do when it rejects no row that re-registers a current member of its own team |
| `EventRuns.RunsKeepRules` | internal/participant/service.go:66-592 | Over every run of use cases and imports, the five team rules and the unique keys hold in every state, and every stored format is one the columns can hold, if and only if every import fits where it happens |
| `EventRuns.NewEventKeepsRules` | internal/participant/service.go:66-592 | The same for every run of an event from its beginning |
| `EventRuns.RunsKeepFormats` | internal/event/service.go:278-456 | Over every run, the stored formats pass the format's own rules in every state if and only if every lap written by a race's use case is at least five metres |
| `EventRuns.CarefulRunsStayValid` | internal/participant/service.go:66-592 | They hold in particular in every run whose imports reject no row that re-registers a current member of its own team, which a dry run shows |
| `RefreshFamilies.Sessions.IssueSession` | internal/auth/service.go:459-482 | A login adds one token of a new family whose absolute expiry is fixed then |
| `RefreshFamilies.Sessions.RefreshAccessToken` | internal/auth/service.go:263-325 | Rotation, grace, reuse detection and every refusal, with the table changed exactly as each branch says |
| `RefreshFamilies.Sessions.Logout` | internal/auth/service.go:415-431 | A logout revokes the family of a token that is the user's own |
| `RefreshFamilies.Sessions.RevokeRefreshTokenFamily` | internal/auth/repository.go:134-141 | Revokes exactly the unrevoked tokens of the family |
| `SessionSafety.TablesAreSound` | internal/auth/service.go:459-509 | In every reachable table a family has one user and one absolute expiry, idle expiry never exceeds it, and replaced-by links lead to later tokens of the same family |
| `SessionSafety.RefreshIsExact` | internal/auth/service.go:263-325 | For every stored token, live or rotated: a refresh issues if and only if the token is unrevoked or was rotated within the grace window, neither its idle nor its absolute expiry has passed, the user is active, and the new hash is free; and each refusal says which of these failed, in order |
| `SessionSafety.RefreshLeaves` | internal/auth/service.go:263-325 | What a refresh leaves in the table, token by token: the presented one rotated, a new one of the same family, user and cap, the family revoked on reuse, nothing else changed |
| `SessionSafety.UnknownIsRefused` | internal/auth/service.go:269-279 | A token that is not stored is refused and changes nothing |
| `SessionSafety.IdleSessionEnds` | internal/auth/service.go:297-299 | A family left alone past the idle expiry of all its tokens is issued nothing again, over any run: whatever is issued was bought with a token not idle-expired then |
| `SessionSafety.LoginIsExact` | internal/auth/service.go:459-509 | A login adds one token whose idle expiry is the idle time after its creation, but no later than the cap fixed then |
| `SessionSafety.LogoutIsExact` | internal/auth/service.go:415-431 | A logout revokes, token by token, exactly the unrevoked ones of the presented token's family when it is the user's own |
| `SessionSafety.SessionsAreCapped` | internal/auth/service.go:465-509 | No chain of refreshes outlives the absolute expiry fixed at login, whatever their number |
| `SessionSafety.LinksAreAcyclic` | internal/auth/repository.go:116-125 | Following replaced-by links never comes back |
| `SessionSafety.StepEvolves` | internal/auth/repository.go:120-141 | A step touches only tokens of one family, and a revoked token never changes again |
| `SessionSafety.LiveTokensAreCounted` | internal/auth/service.go:269-325 | A family's unrevoked tokens are one if it was never revoked, else none, plus one for each grace refresh since it last was |
| `SessionSafety.DeadForever` | internal/auth/service.go:280-296 | A family whose tokens are all revoked and past their grace window is dead under every later step, and none of its tokens is honoured again |
| `SessionSafety.RevokedFamilyDies` | internal/auth/service.go:280-296 | A revoked family that sees no refresh is dead once the grace window is over |
| `SessionSafety.HonouredAfterLogout` | internal/auth/service.go:290-325 | After a logout a token is honoured if and only if it had been rotated before, no longer ago than the grace window, has not expired, and the new hash is free |
| `SessionSafety.LogoutKillsIff` | internal/auth/service.go:415-423 | A logout kills a family at once exactly when no token of it was rotated within the grace window |
| `SessionSafety.LogoutDoesNotKillAtOnce` | internal/auth/repository.go:134-141 | A concrete run in which a token rotated just before the logout still buys a new one |
| `SessionSafety.ReuseEndsTheFamily` | internal/auth/service.go:280-295 | Presenting a dead token leaves no live token in its family and touches no other family |
| `SignupCodes.Signup.StartSignup` | internal/auth/signup.go:61-98 | Cooldown, send counter, silence for registered addresses, and the reset of the attempts with a new code |
| `SignupCodes.Signup.VerifySignupOTP` | internal/auth/signup.go:108-146 | The attempts counter is charged before the comparison, and the code goes with the sixth attempt or a success |
| `SignupCodes.StartAnswers` | internal/auth/signup.go:61-98 | A start is refused if and only if the cooldown runs or more than five were counted, silent if and only if the address is registered, and otherwise stores the code with its lifetime |
| `SignupCodes.CooldownHolds` | internal/auth/signup.go:61-70 | After a start that was let through no other is until the cooldown is over |
| `SignupCodes.VerifyAnswers` | internal/auth/signup.go:108-146 | A guess succeeds if and only if it is the live code and among the first five counted; every guess at a live code is counted, and a success or the sixth guess ends the code |
| `SignupCodes.GuessesAreBounded` | internal/auth/signup.go:29-32 | Over every run of requests that do not overlap, no code is compared more than five times and no more than five codes go out per send counter, whatever clean-up writes are lost, as long as no code is sent over a counter that is alive, has attempts left, runs out under the code, and is not reset |
| `SignupRaces.GuessesPerLife` | internal/auth/signup.go:92-136 | However the single commands of any number of overlapping requests interleave, a code is compared at most five times, and five more for each time the counter ended since the code was stored |
| `SignupRaces.OldCodeComparedAgain` | internal/auth/signup.go:111-126 | A run in which a verification reads a code, a new code is sent with its reset, and the old code is then compared a sixth time on the fresh counter |
| `SignupCodes.SixthComparisonIff` | internal/auth/signup.go:92-131 | A code sent with its reset lost can be compared a sixth time, in a continuation whose later codes do reset, if and only if the old counter is alive, below five, and expires before the code |
| `SignupCodes.LostResetAllowsMore` | internal/auth/signup.go:92-95 | A concrete run in which a lost reset lets a code be compared a sixth time |
| `SignupCodes.CodesAreSingleUse` | internal/auth/signup.go:132-136 | A code is accepted only alive and unchanged, and is gone afterwards unless its deletion is lost |
| `JobProtocol.StepKeepsInv` | internal/jobqueue/queue.go:27-95 | Every step of any enqueuer or worker, failures and crashes included, keeps the whole protocol's invariant |
| `JobProtocol.DispatchIsAtMostOnce` | internal/jobqueue/runner.go:42-76 | In every reachable state a job is listed at most once, held by at most one worker, and its handler was started at most once |
| `JobProtocol.StatusesMoveForward` | internal/jobqueue/repository.go:121-182 | Though no update looks at the old status, a job only moves from queued to processing to one terminal status, and its row never changes after that |
| `JobProtocol.StepMovesForward` | internal/jobqueue/repository.go:121-182 | No single step skips processing or leaves a terminal status |
| `JobProtocol.JobsAreConserved` | internal/jobqueue/queue.go:32-40 | Every job is in exactly one place: unpushed, orphaned, listed, held, abandoned or done |
| `JobProtocol.PopsFollowPushes` | internal/jobqueue/queue.go:74-94 | What was popped is a prefix of what was pushed |
| `JobLiveness.AllJobsFinish` | internal/jobqueue/runner.go:35-77 | Without faults the jobs are moved on in a bounded number of steps in any order, and when none can be moved every one has a terminal status |
| `JobLiveness.WorkShrinks` | internal/jobqueue/runner.go:42-76 | Every faultless step leaves fewer to do |
| `JobWorker.Broker.Enqueue` | internal/jobqueue/queue.go:55-78 | Inserts the row, then pushes its id at the front; a failed push leaves a queued orphan |
| `JobWorker.Broker.Dequeue` | internal/jobqueue/queue.go:86-95 | Pops the oldest id, whose row always exists, or loses it with the reply or the read |
| `JobWorker.Broker.RunOnce` | internal/jobqueue/runner.go:42-76 | One turn of the loop is a run of the protocol; without faults the oldest job is failed if its handler returned an error, completed with errors if it returned a partial one, completed otherwise, and shows the last progress reported |
| `JobWorker.Broker.Run` | internal/jobqueue/runner.go:35-77 | Over any number of turns the loop keeps the invariant, pops one job a turn, and leaves each job ended as its handler returned |
| `JobProtocol.EndsTellResults` | internal/jobqueue/runner.go:59-75 | In every reachable state a job that is completed had its handler return without any error, one completed with errors had it leave part of the work out, and one that failed had it fail |
| `JobProtocol.ResultsAreRecorded` | internal/jobqueue/runner.go:59-75 | Only a handler's return puts a result on record, its own; reported progress changes the two progress fields of that job only |
| `SheetLayout.SheetSizeIsExact` | internal/generator/layout.go:75-89 | Four papers and two orientations are known; a paper stands in portrait and is turned in landscape |
| `SheetLayout.FitIsMaximal` | internal/generator/layout.go:91-100 | The grid is maximal: n BIBs fit between the margins if and only if n is at most the number computed |
| `SheetLayout.ValidateIsExact` | internal/generator/layout.go:103-121 | A layout is accepted if and only if its numbers are in range and its grid fits a known paper |
| `SheetLayout.PlaceCells` | internal/generator/layout.go:125-145 | The loops place exactly the cells of the centred grid, row by row |
| `SheetLayout.CellsAreInOrder` | internal/generator/layout.go:136-143 | Cell row*cols+col is the one of that row and column |
| `SheetLayout.GridIsCentred` | internal/generator/layout.go:123-135 | The first and the last bleed edge are equally far from the sheet's edges, on either axis |
| `SheetLayout.CellsLieInsideMargins` | internal/generator/layout.go:103-145 | Every cell of an accepted layout lies inside the margins with its bleed |
| `SheetLayout.CellsKeepApart` | internal/generator/layout.go:130-143 | Any two cells are at least two bleeds and a gutter apart along some axis |
| `SheetLayout.CropMarkLines` | internal/generator/layout.go:149-190 | The loops give two marks for each distinct cut line of each axis, placed by the outermost edges |
| `SheetLayout.MarksStayClear` | internal/generator/layout.go:147-190 | No crop mark ever meets a bleed box |
| `SheetLayout.MarksAreOnSheet` | internal/generator/layout.go:153-188 | All crop marks are on the sheet if and only if a mark and a millimetre fit outside the outer bleed edge |
| `SheetLayout.AcceptedMarksAreOnSheet` | internal/generator/layout.go:103-190 | With a margin of at least a mark and a millimetre every mark of an accepted layout is on the sheet |
| `PrintOrder.PrintOrder` | internal/generator/layout.go:203-237 | The result is a permutation and the stable sort by team place, leg and BIB |
| `PrintOrder.PrintOrderIsExact` | internal/generator/layout.go:203-235 | One person prints before another if and only if their team or own place is lower, or the same with a lower leg, or with the same leg a lower BIB; a team's place is its lowest BIB |
| `PrintOrder.StableSortIsUnique` | internal/generator/layout.go:226-235 | There is only one stable sort of a list, so the sorting algorithm does not matter |
| `PrintOrder.OrderIgnoresInputOrder` | internal/generator/layout.go:200-237 | For distinct BIBs the print order does not depend on the input order |
| `PrintOrder.TeamsAreContiguous` | internal/generator/layout.go:200-218 | A team prints in one stretch |
| `PrintOrder.TeamsLieAtTheirLowestBib` | internal/generator/layout.go:200-218 | A team prints at the place of its lowest BIB among the others |
| `PrintOrder.MembersPrintByLeg` | internal/generator/layout.go:219-235 | Within a team people print by leg, or BIB where there is none, and then by BIB |
| `SheetRender.SplitParts` | internal/generator/layout.go:243-249 | The loop gives the consecutive parts |
| `SheetRender.PartsCover` | internal/generator/layout.go:239-249 | Parts are consecutive, cover everybody, hold one to 500 people, and all but the last exactly 500 |
| `SheetRender.PagesHoldEverybody` | internal/generator/renderer.go:112-128 | The pages of a part hold its people once each, in order, all but the last page full |
| `SheetRender.PrintHoldsEverybody` | internal/generator/renderer.go:104-134 | The whole print holds everybody exactly once and in order, at most 500 people a file |
| `SheetRender.FilesAreNumbered` | internal/generator/renderer.go:104-134 | Files are numbered from one, and the k-th holds exactly the k-th five hundred people |
| `SheetRender.SheetsAreMadeWith` | internal/generator/renderer.go:118-126 | On every sheet the i-th BIB is drawn in the i-th cell with all the strokes of the artwork, and all crop marks are drawn |
| `SheetRender.PrintLiesInsideMargins` | internal/generator/renderer.go:91-126 | On every sheet of a print with an accepted layout every BIB lies inside the margins with its bleed and meets no crop mark |
| `SheetRender.PrintKeepsApart` | internal/generator/renderer.go:91-126 | Any two BIBs of a sheet are at least two bleeds and a gutter apart on some axis |
| `SheetRender.SheetsAreCeilings` | internal/generator/renderer.go:106-128 | The sheets are the sum of the parts' ceilings |
| `SheetRender.Render` | internal/generator/renderer.go:64-135 | Every refusal in its order, a cancelled request returning nothing, and otherwise the whole print |
| `SheetRender.RenderPart` | internal/generator/renderer.go:111-128 | The paging loop over one part |
| `SheetRender.StaticRuns` | internal/generator/svgread.go:88-101 | The loop counts the maximal runs of static items |
| `SheetRender.DrawItems` | internal/generator/renderer.go:213-240 | The layer index is always below the number of runs and the strokes are the declared ones |
| `SheetRender.LayersAreDrawnOnce` | internal/generator/imagerender.go:131-150 | Each layer is drawn once and in order |
| `SheetRender.StrokesKeepStacking` | internal/generator/renderer.go:214-238 | Every other item is drawn above exactly the layers that start before it |
| `Pbkdf2.Pbkdf2Sha256` | internal/security/password.go:99-132 | The nested loops compute the derived key of section 5.2 of RFC 8018 for any PRF, salt, positive iteration count and key length |
| `Pbkdf2.OneBlock` | internal/security/password.go:108-128 | One block, exclusive-ored in place, is F of the definition |
| `Pbkdf2.FirstBlockIs` | internal/security/password.go:108-128 | The first block after one iteration is the function of the salt and 0001, and after two that exclusive-or the function of it |
| `Bytes.XorIsBitwise` | internal/security/password.go:121-123 | Bit by bit, an exclusive-or is set where exactly one of the two is |
| `Pbkdf2.ShorterIsPrefix` | internal/security/password.go:102-131 | A shorter key is a prefix of a longer one |
| `Pbkdf2.Int4IsExact` | internal/security/password.go:110-113 | Block numbers below 2^32 are encoded without loss |
| `Codecs.Base64RoundTrip` | internal/security/password.go:65-66 | Unpadded base64 decodes what it encoded and never holds the field separators |
| `Codecs.Base64Vectors` | internal/security/password.go:65-66 | The test vectors of section 10 of RFC 4648, without padding |
| `Codecs.DecodeIsExact` | internal/security/password.go:84-91 | Base64 is read if and only if it holds digits of the alphabet only and no single digit is left over; whole groups are what their octets are encoded as |
| `Codecs.LineEndsAreSkipped` | internal/security/password.go:84-91 | Line ends anywhere in base64 make no difference |
| `Codecs.NumbersAreRead` | internal/security/password.go:79-82 | Digits are read with or without a sign if and only if the number fits in 64 bits |
| `Codecs.OnlyNumbersAreRead` | internal/security/password.go:79-82 | Nothing but digits with or without a sign is read as a number |
| `Codecs.SplitIsExact` | internal/security/password.go:74-77 | The fields of a text hold no separator and joined they are the text |
| `Codecs.DecimalRoundTrip` | internal/security/password.go:79-82 | Every 64-bit number is read back from its text |
| `Codecs.SplitJoin` | internal/security/password.go:74-77 | Fields without the separator come back as they were joined |
| `Passwords.HashPassword` | internal/security/password.go:50-69 | Refuses the empty password, otherwise prints algorithm, iterations, salt and derived key |
| `Passwords.VerifyPassword` | internal/security/password.go:73-95 | Says whether the key derived from the stored salt, iterations and length is the stored one, or what is malformed |
| `Passwords.PrintedIsExact` | internal/security/password.go:62-67 | A stored hash reads pbkdf2-sha256, 210000, salt and key in base64, with a dollar between |
| `Passwords.UnrecognizedIff` | internal/security/password.go:74-77 | A text is not recognised if and only if it is not the algorithm's name and three fields behind dollars |
| `Passwords.ParseIsExact` | internal/security/password.go:79-91 | And one that is recognised is taken if and only if its number is positive and its salt and key are base64, in that order of complaint |
| `Passwords.PrintedParses` | internal/security/password.go:62-91 | The four fields print and parse back exactly |
| `Passwords.PrintedIsInjective` | internal/security/password.go:62-69 | Two stored hashes are the same text only if iterations, salt and key are the same |
| `Passwords.HashedPasswordVerifies` | internal/security/password.go:50-95 | Every password verifies against its own hash, and any other exactly when it derives the same key |
| `FontTables.Tables` | internal/fontlib/inspect.go:31-50 | Reads the directory exactly when every entry is inside the file, the last duplicate winning |
| `FontTables.Inspect` | internal/fontlib/inspect.go:54-123 | Accepts exactly the bounded TrueType files with a sound directory, outlines, head and hhea, no variations, no embedding restriction, and a readable name and glyphs |
| `FontTables.EntryIsExact` | internal/fontlib/inspect.go:37-48 | A directory entry names the bytes between its offset and its length, octet by octet, or is cut off or points outside |
| `FontTables.MetricsAreExact` | internal/generator/fonts.go:244-260 | Ascent and descent in terms of the octets: the signed numbers at 4 and 6 of hhea, the descent turned round, over the unsigned one at 18 of head |
| `FontTables.ReadMetrics` | internal/generator/fonts.go:228-261 | Reads the last usable head and hhea tables, skipping entries outside the file and stopping at its end |
| `FontTables.ReadersAgree` | internal/generator/fonts.go:228-261 | Both readers run on one file: whenever the first takes the directory, the second's metrics are those of the first's own head and hhea tables |
| `FontTables.AcceptedFontsHaveMetrics` | internal/generator/fonts.go:251-260 | A file is inspected and its metrics read: of an accepted one that fails if and only if its head table states zero units per em |
| `FontTables.LastDuplicateWins` | internal/fontlib/inspect.go:37-48 | Of several entries with one tag the last one's table is read |
| `Paging.ListPage` | internal/participant/repository.go:170-202 | One page holds the first rows behind the cursor and says whether there are more |
| `Paging.NormalizeLimit` | internal/platform/pagination/pagination.go:52-60 | The limit is between 1 and 100 and a caller's own limit in that range is kept |
| `Paging.WalkReturnsEverything` | internal/participant/repository.go:168-202 | Following the cursors from the start ends and returns every row once, in order |
| `Paging.NothingTwice` | internal/participant/repository.go:168-202 | With inserts and deletes between pages no key is returned twice, in any strict order |
| `Paging.NothingMissed` | internal/participant/repository.go:168-202 | With inserts and deletes between pages a key present throughout is returned, with the row it has then |
| `Cursors.CursorsReturnEverything` | internal/platform/pagination/pagination.go:62-67 | For any strict order and any cursors that keep their keys, following the cursors from none, or from one that does not decode, returns every row once and in order, whatever limit is asked for |
| `Cursors.ParticipantsAreAllListed` | internal/participant/repository.go:155-202 | Following the opaque cursors of the participant listing returns every participant once, by BIB |
| `Cursors.TeamsAreAllListed` | internal/participant/repository.go:382-426 | Following the opaque cursors of the team listing returns every team once, by name and id, whatever the order of names |
| `Cursors.TimedRowsAreAllListed` | internal/platform/pagination/pagination.go:86-112 | Following the opaque cursors of a listing by creation time and id returns every row once, in either direction |
| `Cursors.BibCursorRoundTrip` | internal/participant/repository.go:155-166 | A BIB cursor decodes to its BIB and is never the empty end mark |
| `Cursors.CursorContinues` | internal/participant/repository.go:173-200 | The next page starts where the page ended, and an empty cursor means the end |
| `Cursors.TeamCursorRoundTrip` | internal/participant/repository.go:415-426 | A team cursor decodes to its name and id, whatever the name holds, if and only if the id is not empty and holds no bar |
| `Cursors.TimedCursorRoundTrip` | internal/platform/pagination/pagination.go:86-112 | A time cursor decodes to its time and id |

## Left out

- Handlers, roles, audit records, mail, row-level security, tenants and the names, slugs and distances of races: plumbing with no deep property.
- SQL text and isolation levels: each transaction is atomic, and concurrent transactions on the same rows are not interleaved.
- Text.Lower: folds ASCII letters only, where Go folds every letter; the proofs about team keys use nothing else of it.
- Text.IsSpace: the Unicode spaces of Go's table, listed.
- ImportPlan.Screen: keeps the level and field of each issue, not its wording.
- EventStore.Store.DeleteParticipants: takes the selected ids; how a filter selects them in SQL is not modelled.
- EventCases.UpdateRace: covers the format; the race's other fields carry no rule.
- Result columns of participants and teams (times, laps, ranks): written by no operation of the model.
- RefreshFamilies.Sessions.RefreshAccessToken: the refresh alone; the access token minted after it, the client details of a row and the blacklist of access tokens are not part of this model.
- RefreshFamilies.Sessions.Logout: a failed database call, which the code ignores, is not modelled.
- JobWorker.Broker.RunOnce: one worker's turn without interference; interleavings of many workers are the steps of JobProtocol.
- Job payloads, results and timestamps, and rows deleted under a running job: no step looks at them.
- Parts of SheetLayout and FontTables in `real`: float64 rounding is abstracted.
- SheetRender.Render: drawing a BIB always succeeds; fonts, text measuring, images and PDF encoding are foreign.
- SheetLayout.FitIsMaximal: assumes a positive pitch, which a template's positive size and the range checks guarantee.
- PrintOrder.PrintOrder: the library's stable sort is modelled by insertion, which StableSortIsUnique shows to be the same list.
- Pbkdf2.Pbkdf2Sha256: HMAC-SHA256 is any function with outputs of one length; for keys of 2^32 blocks or more the block number wraps as in the code, which RFC 8018 excludes.
- Passwords.VerifyPassword: constant-time comparison is equality; timing is not modelled.
- FontTables.Inspect: what the font parser reports is a parameter.
- Cursors.TeamsAreAllListed: the collation of names is any strict order.
- Texts with a NUL character and ids that are no UUIDs: the database refuses them wherever they are sent; the model's texts and ids have neither.
- Columns: a decimal is the real number it stands for, before and after it is stored; float64 is not modelled.
- Times in RefreshFamilies: nanoseconds as drawn; the tables keep microseconds, so the grace and cap comparisons hold up to that rounding.
- Google sign-in, OCR, face recognition, object storage, templates, certificates, albums and capability checks: foreign services or easy members.
