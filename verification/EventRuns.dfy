/** Whole runs of an event: any sequence of use cases and imports keeps the
    team rules. */
module EventRuns {
  import opened Wrappers
  import opened Text
  import opened Registration
  import opened InputRules
  import opened TeamRules
  import opened Columns
  import opened ImportPlan
  import opened EventState
  import opened ImportApply
  import opened ImportTracking
  import opened ImportSafety
  import opened ImportCounts
  import opened ImportTeams
  import opened ImportLegs
  import opened ImportRefinement
  import opened EventCases
  import opened EventRules

  // ---- an import as the service runs it

  const MAX_IMPORT_ROWS := 5000

  datatype ImportRequest = ImportRequest(defaultRaceID: string, updateExisting: bool, dryRun: bool, rows: seq<ImportRow>)

  /** A row with its race filled in and its input cleaned up. */
  function PrepareRow(row: ImportRow, defaultRaceID: string): ImportRow {
    var (input, bad) := Normalize(row.input);
    row.(raceID := if row.raceID == "" then defaultRaceID else row.raceID, input := input, badBloodType := bad)
  }

  function PrepareRows(req: ImportRequest): seq<ImportRow> {
    seq(|req.rows|, i requires 0 <= i < |req.rows| => PrepareRow(req.rows[i], req.defaultRaceID))
  }

  /** A row is planned as it was sent, but for the race of a row that names none, and its
      input cleaned up; what was no blood type is kept aside. */
  lemma {:induction false} RowIsPrepared(row: ImportRow, defaultRaceID: string)
    ensures var r := PrepareRow(row, defaultRaceID);
            && r.raceID == (if row.raceID == "" then defaultRaceID else row.raceID)
            && r.line == row.line && r.teamName == row.teamName && r.teamCategory == row.teamCategory
            && r.input.bib == row.input.bib && r.input.gender == row.input.gender && r.input.legOrder == row.input.legOrder
            && Cleaned(row.input.refID, r.input.refID)
            && TrimmedTo(row.input.details.firstName, r.input.details.firstName)
            && Cleaned(row.input.details.lastName, r.input.details.lastName)
            && Cleaned(row.input.details.email, r.input.details.email)
            && (forall blood :: Cleaned(row.input.details.bloodType, Some(blood)) ==>
                  && r.input.details.bloodType == NormalizeBloodType(blood)
                  && r.badBloodType == if NormalizeBloodType(blood).Some? then "" else blood)
  {
    NormalizeIsExact(row.input);
  }

  /** The planner's input: the prepared rows against what was loaded. */
  function BatchOf(s: State, req: ImportRequest, existing: seq<Existing>, teams: seq<ExistingTeam>): PlanInput {
    PlanInput(PrepareRows(req), req.updateExisting, s.races, existing, teams)
  }

  /** Why an import ends before it plans anything: the file is empty or too long, or
      a BIB to look up does not fit its column. */
  function RequestFailure(req: ImportRequest): Option<Failure> {
    if |req.rows| == 0 then Some(EmptyImport)
    else if |req.rows| > MAX_IMPORT_ROWS then Some(TooManyRows)
    else if !BibsFit(PrepareRows(req)) then Some(OutOfRange)
    else None
  }

  lemma RequestAnswers(req: ImportRequest)
    ensures RequestFailure(req) == Some(EmptyImport) <==> req.rows == []
    ensures RequestFailure(req) == Some(TooManyRows) <==> |req.rows| > 5000
    ensures RequestFailure(req) == Some(OutOfRange) <==>
              0 < |req.rows| <= 5000 && exists i :: 0 <= i < |req.rows| && PrepareRows(req)[i].input.bib > 2147483647
  {
  }

  /** What was loaded, and the fresh ids an import may draw. */
  datatype Supply = Supply(existing: seq<Existing>, teams: seq<ExistingTeam>, teamIDs: seq<string>, freshIDs: seq<string>)

  /** The listings are what the repository returns now, and the ids are new. */
  ghost predicate Supplies(s: State, req: ImportRequest, supply: Supply) {
    var rows := PrepareRows(req);
    && (forall r :: r in s.races ==> Barless(r))
    && ListsPeople(supply.existing, Loaded(s.people, BibsOf(rows), RefsOf(rows)))
    && ListsTeams(supply.teams, s)
    && |supply.teamIDs| == |PlanOf(BatchOf(s, req, supply.existing, supply.teams)).newTeams|
    && |supply.freshIDs| == |rows|
    && IdsAreNew(supply.teamIDs, s.teams.Keys)
    && IdsAreNew(supply.freshIDs, s.people.Keys)
  }

  ghost function Import(s: State, req: ImportRequest, supply: Supply): Result<State, Failure>
    requires Supplies(s, req, supply)
  {
    var batch := BatchOf(s, req, supply.existing, supply.teams);
    if RequestFailure(req).Some? then Err(RequestFailure(req).value)
    else if req.dryRun then Ok(s)
    else ApplyPlan(s, batch.rows, PlanOf(batch), supply.teamIDs, supply.freshIDs)
  }

  /** The row re-registers a current member of the team it names. */
  predicate ReregistersOwnMember(s: State, row: ImportRow, rp: RowPlan) {
    && rp.existingID.Some? && rp.existingID.value in s.people
    && var team := s.people[rp.existingID.value].teamID;
       && team.Some? && team.value in s.teams
       && TeamKey(s.teams[team.value].raceID, s.teams[team.value].name) == TeamKey(row.raceID, row.teamName)
  }

  /** No rejected row re-registers a current member of its own team. */
  ghost predicate NoMemberRejected(s: State, rows: seq<ImportRow>, plan: Plan)
    requires |rows| == |plan.rows|
  {
    forall i :: 0 <= i < |rows| && plan.rows[i].action == Rejected ==> !ReregistersOwnMember(s, rows[i], plan.rows[i])
  }

  // ---- the hypothesis on the plan is the hypothesis on the run

  lemma {:induction false} ReregisteringRow(d: Draft, idx: seq<nat>, q: string) returns (i: nat)
    requires forall k :: 0 <= k < |idx| ==> idx[k] < |d.entries|
    requires q in Reregistered(d, idx)
    ensures i in idx && i < |d.entries| && d.entries[i].judged.existingID == Some(q)
  {
    var k :| 0 <= k < |idx| && d.entries[idx[k]].judged.existingID == Some(q);
    i := idx[k];
  }

  /** A row that pass 1 lets apply keeps its decision or is rejected. */
  lemma {:induction false} AcceptedOrRejected(batch: PlanInput, i: nat)
    requires i < |batch.rows| && Applies(Judge(batch, i))
    ensures PlanOf(batch).rows[i].existingID == Judge(batch, i).existingID
    ensures PlanOf(batch).rows[i].action == Rejected || PlanOf(batch).rows[i].action == Judge(batch, i).action
  {
    var d := DraftOf(batch);
    DraftIsSound(batch);
    if Joins(d.races, d.entries[i]) {
      JoiningRow(d, i);
    } else {
      OtherRow(d, i);
    }
  }

  /** A row that re-registers a participant writes it or is rejected. */
  lemma {:induction false} ReregisteredOrRejected(batch: PlanInput, sc: Script, i: nat, q: string)
    requires sc.Shaped() && sc.plans == PlanOf(batch).rows
    requires i < |batch.rows| && Applies(Judge(batch, i)) && Judge(batch, i).existingID == Some(q)
    ensures PlanOf(batch).rows[i].existingID == Some(q)
    ensures PlanOf(batch).rows[i].action == Rejected || sc.Writes(i, q)
  {
    AcceptedOrRejected(batch, i);
    JudgeIsSound(batch, i);
  }

  /** Somebody left behind was re-registered by a rejected row of its team. */
  lemma {:induction false} LeftMeansRejected(r: Run, sc: Script, key: string, t: string, q: string) returns (i: nat)
    requires sc.Shaped() && sc.plans == PlanOf(r.batch).rows
    requires q in LeftBehind(r, sc, key, t)
    ensures i < |r.batch.rows| && PlanOf(r.batch).rows[i].action == Rejected
    ensures PlanOf(r.batch).rows[i].existingID == Some(q)
    ensures TeamKey(r.batch.rows[i].raceID, r.batch.rows[i].teamName) == key
  {
    var d := DraftOf(r.batch);
    i := ReregisteringRow(d, Group(d, key), q);
    assert JoinsTeam(d, i, key);
    ReregisteredOrRejected(r.batch, sc, i, q);
  }

  /** A stored team with members has the key of its group. */
  lemma KeyOfStoredTeam(r: Run, key: string, t: string, q: string)
    requires r.Ready() && Linked(r.s) && KeyOfTeam(r, key, t)
    requires q in r.s.people && r.s.people[q].teamID == Some(t)
    ensures t in r.s.teams && TeamKey(r.s.teams[t].raceID, r.s.teams[t].name) == key
  {
  }

  lemma {:induction false} NobodyLeftInGroup(r: Run, sc: Script, key: string, t: string)
    requires r.Ready() && Linked(r.s) && NoMemberRejected(r.s, r.batch.rows, PlanOf(r.batch)) && KeyOfTeam(r, key, t)
    requires sc.Shaped() && sc.plans == PlanOf(r.batch).rows
    ensures LeftBehind(r, sc, key, t) == {}
  {
    if q :| q in LeftBehind(r, sc, key, t) {
      var i := LeftMeansRejected(r, sc, key, t, q);
      KeyOfStoredTeam(r, key, t, q);
    }
  }

  lemma {:induction false} NobodyIsLeft(r: Run)
    requires Started(r) && NoMemberRejected(r.s, r.batch.rows, PlanOf(r.batch))
    ensures NobodyLeft(r)
  {
    forall key, t | Forms(DraftOf(r.batch), key) && KeyOfTeam(r, key, t)
      ensures LeftBehind(r, r.RowScript(), key, t) == {}
    {
      NobodyLeftInGroup(r, r.RowScript(), key, t);
    }
  }

  // ---- an import keeps the rules

  /** The whole table can be listed. */
  lemma {:induction false} PeopleCanBeListed(people: map<string, Participant>) returns (existing: seq<Existing>)
    ensures ListsPeople(existing, people)
  {
    existing := ListOf(people, people.Keys);
  }

  lemma {:induction false} ListOf(people: map<string, Participant>, ids: set<string>) returns (existing: seq<Existing>)
    requires ids <= people.Keys
    ensures forall e :: e in existing ==> e.id in ids && e == ViewOf(e.id, people[e.id])
    ensures forall q :: q in ids ==> ViewOf(q, people[q]) in existing
    decreases |ids|
  {
    existing := [];
    if ids != {} {
      var q :| q in ids;
      var rest := ListOf(people, ids - {q});
      existing := rest + [ViewOf(q, people[q])];
    }
  }

  /** The run in which the planner saw the whole table. */
  lemma {:induction false} WholeTableRun(s: State, req: ImportRequest, supply: Supply) returns (r: Run)
    requires Valid(s) && Supplies(s, req, supply) && BibsFit(PrepareRows(req))
    ensures r.Ready() && r.s == s && r.teamIDs == supply.teamIDs && r.freshIDs == supply.freshIDs
    ensures r.batch.rows == PrepareRows(req) && PlanOf(r.batch) == PlanOf(BatchOf(s, req, supply.existing, supply.teams))
    ensures r.Outcome() == ApplyPlan(s, r.batch.rows, PlanOf(r.batch), supply.teamIDs, supply.freshIDs)
  {
    var batch := BatchOf(s, req, supply.existing, supply.teams);
    var whole := PeopleCanBeListed(s.people);
    DistinctKeysAreUnique(s);
    LoadedRowsSuffice(batch.(existing := whole), supply.existing, s.people);
    r := Run(s, batch.(existing := whole), supply.teamIDs, supply.freshIDs);
    assert r.batch.(existing := supply.existing) == batch;
  }

  /** The writes of a plan, its new teams in. */
  function ScriptOf(s: State, rows: seq<ImportRow>, plan: Plan, teamIDs: seq<string>, freshIDs: seq<string>): Script
    requires |plan.newTeams| == |teamIDs| && AddTeams(s, plan.newTeams, teamIDs, |teamIDs|).Ok?
  {
    Script(AddTeams(s, plan.newTeams, teamIDs, |teamIDs|).value, rows, plan.rows, NewIDs(plan.newTeams, teamIDs, |teamIDs|), freshIDs)
  }

  /** By the plan and the tables, every team has room for the people who remain
      and arrive, and a mixed one they fill has both genders. */
  ghost predicate PlanFits(s: State, rows: seq<ImportRow>, plan: Plan, teamIDs: seq<string>, freshIDs: seq<string>)
    requires |plan.newTeams| == |teamIDs|
  {
    AddTeams(s, plan.newTeams, teamIDs, |teamIDs|).Ok? && CountsFit(ScriptOf(s, rows, plan, teamIDs, freshIDs))
  }

  /** By the plan and the tables, some row takes a leg that is still held. */
  ghost predicate PlanMeetsLeg(s: State, rows: seq<ImportRow>, plan: Plan)
    requires |rows| == |plan.rows|
  {
    exists k, q :: LegStillHeld(s, rows, plan.rows, k, q)
  }

  lemma {:induction false} FinishedRunIsExact(r: Run)
    requires r.Ready() && Valid(r.s) && r.Outcome().Ok?
    ensures Valid(r.Outcome().value) <==> PlanFits(r.s, r.batch.rows, PlanOf(r.batch), r.teamIDs, r.freshIDs)
    ensures NoMemberRejected(r.s, r.batch.rows, PlanOf(r.batch)) ==> Valid(r.Outcome().value)
  {
    ImportIsValidIff(r);
    assert r.RowScript() == ScriptOf(r.s, r.batch.rows, PlanOf(r.batch), r.teamIDs, r.freshIDs);
    if NoMemberRejected(r.s, r.batch.rows, PlanOf(r.batch)) {
      NobodyIsLeft(r);
      ImportKeepsTheRules(r);
    }
  }

  /** What executing a plan of the current tables comes to, exactly. */
  ghost predicate EndsAsPlanned(s: State, rows: seq<ImportRow>, plan: Plan, teamIDs: seq<string>, freshIDs: seq<string>, outcome: Result<State, Failure>)
    requires |plan.newTeams| == |teamIDs| && |rows| == |plan.rows|
  {
    match outcome
    case Err(e) => PlanMeetsLeg(s, rows, plan) && e == LegTaken
    case Ok(s') =>
      && !PlanMeetsLeg(s, rows, plan)
      && (Valid(s') <==> PlanFits(s, rows, plan, teamIDs, freshIDs))
      && (NoMemberRejected(s, rows, plan) ==> Valid(s'))
  }

  lemma {:induction false} RunEndsAsPlanned(r: Run)
    requires r.Ready() && Valid(r.s)
    ensures EndsAsPlanned(r.s, r.batch.rows, PlanOf(r.batch), r.teamIDs, r.freshIDs, r.Outcome())
  {
    ImportFailsIff(r);
    if r.Outcome().Ok? {
      FinishedRunIsExact(r);
    }
  }

  /** An import of the loaded rows fails exactly when the request is refused, a
      BIB of the file is above the column's range, or
      a row takes a leg still held; one that ends keeps the rules exactly when
      every team's head counts fit, as they do when no rejected row re-registers
      a current member of its own team. */
  lemma {:induction false} ImportKeepsRules(s: State, req: ImportRequest, supply: Supply)
    requires Valid(s) && Supplies(s, req, supply)
    ensures var rows, plan := PrepareRows(req), PlanOf(BatchOf(s, req, supply.existing, supply.teams));
            if RequestFailure(req).Some? then Import(s, req, supply) == Err(RequestFailure(req).value)
            else if req.dryRun then Import(s, req, supply) == Ok(s)
            else EndsAsPlanned(s, rows, plan, supply.teamIDs, supply.freshIDs, Import(s, req, supply))
  {
    if RequestFailure(req).None? && !req.dryRun {
      var r := WholeTableRun(s, req, supply);
      RunEndsAsPlanned(r);
    }
  }

  /** When an import fails, as the request, the plan and the tables tell: the file
      is empty or over 5000 rows, a BIB of it is above the column's range (a dry run
      fails then, too), or a row takes a leg that is still held. */
  lemma {:induction false} ImportFails(s: State, req: ImportRequest, supply: Supply)
    requires Valid(s) && Supplies(s, req, supply)
    ensures var rows, plan := PrepareRows(req), PlanOf(BatchOf(s, req, supply.existing, supply.teams));
            Import(s, req, supply).Err? <==>
              || |rows| == 0 || |rows| > MAX_IMPORT_ROWS
              || (exists i :: 0 <= i < |rows| && rows[i].input.bib > MAX_INT4)
              || (!req.dryRun && PlanMeetsLeg(s, rows, plan))
  {
    ImportKeepsRules(s, req, supply);
    var rows := PrepareRows(req);
    if i :| 0 <= i < |rows| && rows[i].input.bib > MAX_INT4 {
      assert !BibsFit(rows);
    }
  }

  // ---- runs

  datatype Step =
    | CreatePersonStep(id: string, raceID: string, input: Input)
    | UpdatePersonStep(id: string, patch: Patch)
    | DeletePeopleStep(selected: set<string>)
    | SetStatusStep(selected: set<string>, status: Status)
    | CreateTeamStep(id: string, raceID: string, name: string, category: Category)
    | UpdateTeamStep(id: string, newName: Option<string>, newCategory: Option<Category>)
    | DeleteTeamStep(id: string, withMembers: bool)
    | CreateRaceStep(id: string, format: RaceFormat)
    | UpdateRaceStep(id: string, formatPatch: FormatPatch)
    | DeleteRaceStep(id: string)
    | ImportStep(req: ImportRequest, supply: Supply)

  /** A created row gets an id nobody has, and an import reads the current tables. */
  ghost predicate Possible(s: State, step: Step) {
    match step
    case CreatePersonStep(id, _, _) => id !in s.people
    case CreateTeamStep(id, _, _, _) => id !in s.teams
    case CreateRaceStep(id, _) => id !in s.races
    case ImportStep(req, supply) => Supplies(s, req, supply)
    case _ => true
  }

  ghost function Outcome(s: State, step: Step): Result<State, Failure>
    requires Possible(s, step)
  {
    match step
    case CreatePersonStep(id, raceID, input) => CreatePerson(s, id, raceID, input)
    case UpdatePersonStep(id, patch) => UpdatePerson(s, id, patch)
    case DeletePeopleStep(selected) => Ok(DeletePeople(s, selected))
    case SetStatusStep(selected, status) => SetStatus(s, selected, status)
    case CreateTeamStep(id, raceID, name, category) => CreateTeam(s, id, raceID, name, category)
    case UpdateTeamStep(id, name, category) => UpdateTeam(s, id, name, category)
    case DeleteTeamStep(id, withMembers) => DeleteTeam(s, id, withMembers)
    case CreateRaceStep(id, format) => CreateRace(s, id, format)
    case UpdateRaceStep(id, patch) => UpdateRace(s, id, patch)
    case DeleteRaceStep(id) => DeleteRace(s, id)
    case ImportStep(req, supply) => Import(s, req, supply)
  }

  /** A failed transaction changes nothing. */
  ghost function Next(s: State, step: Step): State
    requires Possible(s, step)
  {
    match Outcome(s, step)
    case Ok(s') => s'
    case Err(_) => s
  }

  /** If the import writes, its head counts fit. */
  ghost predicate ImportFits(s: State, req: ImportRequest, supply: Supply)
    requires Supplies(s, req, supply)
  {
    RequestFailure(req).None? && !req.dryRun && Import(s, req, supply).Ok? ==>
      PlanFits(s, PrepareRows(req), PlanOf(BatchOf(s, req, supply.existing, supply.teams)), supply.teamIDs, supply.freshIDs)
  }

  ghost predicate Fitting(s: State, step: Step)
    requires Possible(s, step)
  {
    match step
    case ImportStep(req, supply) => ImportFits(s, req, supply)
    case _ => true
  }

  /** If the step is an import, it rejects no row that re-registers a current
      member of its own team. */
  ghost predicate Careful(s: State, step: Step) {
    step.ImportStep? && !step.req.dryRun ==>
      NoMemberRejected(s, PrepareRows(step.req), PlanOf(BatchOf(s, step.req, step.supply.existing, step.supply.teams)))
  }

  /** Every use case keeps the rules, and an import exactly when it fits. */
  lemma {:induction false} StepKeepsRules(s: State, step: Step)
    requires Valid(s) && Possible(s, step)
    ensures Valid(Next(s, step)) <==> Fitting(s, step)
    ensures Careful(s, step) ==> Fitting(s, step)
  {
    if Outcome(s, step).Ok? {
      match step
      case CreatePersonStep(id, raceID, input) => CreatePersonKeepsRules(s, id, raceID, input);
      case UpdatePersonStep(id, patch) => UpdatePersonKeepsRules(s, id, patch);
      case DeletePeopleStep(selected) => DeletePeopleKeepsRules(s, selected);
      case SetStatusStep(selected, status) => SetStatusKeepsRules(s, selected, status);
      case CreateTeamStep(id, raceID, name, category) => CreateTeamKeepsRules(s, id, raceID, name, category);
      case UpdateTeamStep(id, name, category) => UpdateTeamKeepsRules(s, id, name, category);
      case DeleteTeamStep(id, withMembers) => DeleteTeamKeepsRules(s, id, withMembers);
      case CreateRaceStep(id, format) => CreateRaceKeepsRules(s, id, format);
      case UpdateRaceStep(id, patch) => UpdateRaceKeepsRules(s, id, patch);
      case DeleteRaceStep(id) => DeleteRaceKeepsRules(s, id);
      case ImportStep(req, supply) => ImportKeepsRules(s, req, supply);
    }
  }

  /** A run from s: every step is possible where it happens. */
  ghost predicate IsRun(s: State, steps: seq<Step>)
    decreases |steps|
  {
    steps == [] || (Possible(s, steps[0]) && IsRun(Next(s, steps[0]), steps[1..]))
  }

  /** Every state of the run is valid. */
  ghost predicate StaysValid(s: State, steps: seq<Step>)
    requires IsRun(s, steps)
    decreases |steps|
  {
    Valid(s) && (steps == [] || StaysValid(Next(s, steps[0]), steps[1..]))
  }

  /** Every import of the run fits where it happens. */
  ghost predicate AllFit(s: State, steps: seq<Step>)
    requires IsRun(s, steps)
    decreases |steps|
  {
    steps == [] || (Fitting(s, steps[0]) && AllFit(Next(s, steps[0]), steps[1..]))
  }

  ghost predicate AllCareful(s: State, steps: seq<Step>)
    requires IsRun(s, steps)
    decreases |steps|
  {
    steps == [] || (Careful(s, steps[0]) && AllCareful(Next(s, steps[0]), steps[1..]))
  }

  /** Over every run from a valid state, the team rules and the unique keys hold
      in every state if and only if every import fits. */
  lemma {:induction false} RunsKeepRules(s: State, steps: seq<Step>)
    requires Valid(s) && IsRun(s, steps)
    ensures StaysValid(s, steps) <==> AllFit(s, steps)
    decreases |steps|
  {
    if steps != [] {
      StepKeepsRules(s, steps[0]);
      if Fitting(s, steps[0]) {
        RunsKeepRules(Next(s, steps[0]), steps[1..]);
      } else {
        assert !Valid(Next(s, steps[0]));
      }
    }
  }

  /** They hold in particular when no import rejects a row that re-registers a
      current member of its own team. */
  lemma {:induction false} CarefulRunsStayValid(s: State, steps: seq<Step>)
    requires Valid(s) && IsRun(s, steps) && AllCareful(s, steps)
    ensures StaysValid(s, steps)
    decreases |steps|
  {
    if steps != [] {
      StepKeepsRules(s, steps[0]);
      CarefulRunsStayValid(Next(s, steps[0]), steps[1..]);
    }
  }

  const NEW_EVENT := State(map[], map[], map[])

  /** Of an event from its beginning: the rules hold throughout exactly when every
      import fits. */
  lemma {:induction false} NewEventKeepsRules(steps: seq<Step>)
    requires IsRun(NEW_EVENT, steps)
    ensures StaysValid(NEW_EVENT, steps) <==> AllFit(NEW_EVENT, steps)
    ensures AllCareful(NEW_EVENT, steps) ==> StaysValid(NEW_EVENT, steps)
  {
    assert Valid(NEW_EVENT);
    RunsKeepRules(NEW_EVENT, steps);
    if AllCareful(NEW_EVENT, steps) {
      CarefulRunsStayValid(NEW_EVENT, steps);
    }
  }

  // ---- the formats of the races

  ghost predicate FormatsValid(s: State) {
    forall r :: r in s.races ==> FormatValid(s.races[r])
  }

  /** The format a step sends to the races table, if it does. */
  function SentFormat(s: State, step: Step): Option<RaceFormat> {
    match step
    case CreateRaceStep(_, format) => Some(NormalizeFormat(format))
    case UpdateRaceStep(id, patch) => if id in s.races then Some(NormalizeFormat(ApplyFormat(s.races[id], patch))) else None
    case _ => None
  }

  /** If the step writes the format of a loop race, its lap has at least five metres. */
  ghost predicate LapsHold(s: State, step: Step)
    requires Possible(s, step)
  {
    Outcome(s, step).Ok? && SentFormat(s, step).Some? ==>
      var format := SentFormat(s, step).value;
      format.course == Loop ==> format.loopLengthKM.Some? && format.loopLengthKM.value >= 0.005
  }

  lemma {:induction false} TeamsLeaveRaces(s: State, planned: seq<PlannedTeam>, ids: seq<string>, n: nat)
    requires n <= |planned| == |ids| && AddTeams(s, planned, ids, n).Ok?
    ensures AddTeams(s, planned, ids, n).value.races == s.races
  {
    if n > 0 {
      TeamsLeaveRaces(s, planned, ids, n - 1);
    }
  }

  lemma {:induction false} RowsLeaveRaces(s: State, rows: seq<ImportRow>, plans: seq<RowPlan>, newIDs: map<string, string>, freshIDs: seq<string>, n: nat)
    requires n <= |rows| == |plans| == |freshIDs| && ApplyRows(s, rows, plans, newIDs, freshIDs, n).Ok?
    ensures ApplyRows(s, rows, plans, newIDs, freshIDs, n).value.races == s.races
  {
    if n > 0 {
      RowsLeaveRaces(s, rows, plans, newIDs, freshIDs, n - 1);
    }
  }

  lemma {:induction false} ImportLeavesRaces(s: State, req: ImportRequest, supply: Supply)
    requires Supplies(s, req, supply) && Import(s, req, supply).Ok?
    ensures Import(s, req, supply).value.races == s.races
  {
    var batch := BatchOf(s, req, supply.existing, supply.teams);
    var plan := PlanOf(batch);
    if !req.dryRun {
      TeamsLeaveRaces(s, plan.newTeams, supply.teamIDs, |plan.newTeams|);
      RowsLeaveRaces(AddTeams(s, plan.newTeams, supply.teamIDs, |plan.newTeams|).value, batch.rows, plan.rows,
                     NewIDs(plan.newTeams, supply.teamIDs, |plan.newTeams|), supply.freshIDs, |batch.rows|);
    }
  }

  /** Writing a valid format leaves a valid one exactly when its lap holds. */
  lemma {:induction false} PutRaceKeepsFormats(s: State, id: string, format: RaceFormat)
    requires FormatsValid(s) && FormatValid(format) && PutRace(s, id, format).Ok?
    ensures FormatsValid(PutRace(s, id, format).value) <==> (format.course == Loop ==> format.loopLengthKM.value >= 0.005)
  {
    var s' := PutRace(s, id, format).value;
    KeptIsValidIff(format);
    assert s'.races[id] == KeptFormat(format).value;
  }

  lemma {:induction false} StepKeepsFormats(s: State, step: Step)
    requires FormatsValid(s) && Possible(s, step)
    ensures FormatsValid(Next(s, step)) <==> LapsHold(s, step)
  {
    if Outcome(s, step).Ok? {
      match step
      case CreateRaceStep(id, format) =>
        PutRaceKeepsFormats(s, id, NormalizeFormat(format));
      case UpdateRaceStep(id, patch) =>
        PutRaceKeepsFormats(s, id, NormalizeFormat(ApplyFormat(s.races[id], patch)));
      case _ =>
        OtherStepsLeaveRaces(s, step);
    }
  }

  /** Only a race's own use cases write its format. */
  lemma {:induction false} OtherStepsLeaveRaces(s: State, step: Step)
    requires Possible(s, step) && Outcome(s, step).Ok? && !step.CreateRaceStep? && !step.UpdateRaceStep?
    ensures forall r :: r in Next(s, step).races ==> r in s.races && Next(s, step).races[r] == s.races[r]
  {
    if step.ImportStep? {
      ImportLeavesRaces(s, step.req, step.supply);
    }
  }

  ghost predicate FormatsStayValid(s: State, steps: seq<Step>)
    requires IsRun(s, steps)
    decreases |steps|
  {
    FormatsValid(s) && (steps == [] || FormatsStayValid(Next(s, steps[0]), steps[1..]))
  }

  ghost predicate AllLapsHold(s: State, steps: seq<Step>)
    requires IsRun(s, steps)
    decreases |steps|
  {
    steps == [] || (LapsHold(s, steps[0]) && AllLapsHold(Next(s, steps[0]), steps[1..]))
  }

  /** Over every run, the formats in the table all pass the format's own rules in
      every state if and only if every lap written has at least five metres. */
  lemma {:induction false} RunsKeepFormats(s: State, steps: seq<Step>)
    requires FormatsValid(s) && IsRun(s, steps)
    ensures FormatsStayValid(s, steps) <==> AllLapsHold(s, steps)
    decreases |steps|
  {
    if steps != [] {
      StepKeepsFormats(s, steps[0]);
      if LapsHold(s, steps[0]) {
        RunsKeepFormats(Next(s, steps[0]), steps[1..]);
      } else {
        assert !FormatsValid(Next(s, steps[0]));
      }
    }
  }
}
