/** Executing a plan: the teams it creates, then its accepted rows, one write
    at a time (internal/participant/import_service.go). */
module ImportApply {
  import opened Wrappers
  import opened Registration
  import opened ImportPlan
  import opened EventState

  function Keep<T>(stored: Option<T>, supplied: Option<T>): Option<T> {
    if supplied.Some? then supplied else stored
  }

  /** A blank cell leaves the stored value alone; the status is never touched. */
  function Overlay(stored: Details, supplied: Details): Details {
    Details(supplied.firstName,
            Keep(stored.lastName, supplied.lastName),
            Keep(stored.bibName, supplied.bibName),
            Keep(stored.email, supplied.email),
            Keep(stored.club, supplied.club),
            Keep(stored.emergencyName, supplied.emergencyName),
            Keep(stored.emergencyPhone, supplied.emergencyPhone),
            Keep(stored.bloodType, supplied.bloodType),
            stored.status)
  }

  /** The team a planned row is written with. */
  function TeamIDOf(rp: RowPlan, newIDs: map<string, string>): Option<string> {
    match rp.team
    case None => None
    case Some(ToExisting(id)) => Some(id)
    case Some(ToNew(key)) => Some(if key in newIDs then newIDs[key] else "")
  }

  function LegOf(races: map<string, RaceFormat>, row: ImportRow): Option<int> {
    if row.raceID in races && races[row.raceID].IsRelay() then row.input.legOrder else None
  }

  function Created(races: map<string, RaceFormat>, row: ImportRow, rp: RowPlan, newIDs: map<string, string>): Participant {
    Participant(row.raceID, TeamIDOf(rp, newIDs), LegOf(races, row), row.input.bib, row.input.gender, row.input.refID,
                row.input.details.(status := Registered))
  }

  function Updated(races: map<string, RaceFormat>, p: Participant, row: ImportRow, rp: RowPlan, newIDs: map<string, string>): Participant {
    Participant(row.raceID, TeamIDOf(rp, newIDs), LegOf(races, row), row.input.bib, row.input.gender,
                Keep(p.refID, row.input.refID), Overlay(p.details, row.input.details))
  }

  /** Writing a row over what the same row created or updated changes nothing:
      blanks keep what is there, and the rest is already the row's. */
  lemma RewritingChangesNothing(races: map<string, RaceFormat>, p: Participant, row: ImportRow, rp: RowPlan, newIDs: map<string, string>,
                                rp': RowPlan, newIDs': map<string, string>)
    requires TeamIDOf(rp', newIDs') == TeamIDOf(rp, newIDs)
    ensures Updated(races, Created(races, row, rp, newIDs), row, rp', newIDs') == Created(races, row, rp, newIDs)
    ensures Updated(races, Updated(races, p, row, rp, newIDs), row, rp', newIDs') == Updated(races, p, row, rp, newIDs)
  {
  }

  /** A row with nothing but the required cells leaves every optional field and
      the status of the person as they were. */
  lemma BlankCellsKeepFields(stored: Details, supplied: Details)
    requires supplied == Details(supplied.firstName, None, None, None, None, None, None, None, supplied.status)
    ensures Overlay(stored, supplied) == stored.(firstName := supplied.firstName)
  {
  }

  /** One row's write; a row that does not apply writes nothing. */
  function ApplyRow(s: State, row: ImportRow, rp: RowPlan, newIDs: map<string, string>, freshID: string): Result<State, Failure> {
    match rp.action
    case Create => PutPerson(s, freshID, Created(s.races, row, rp, newIDs))
    case Update =>
      if rp.existingID.None? || rp.existingID.value !in s.people then Err(NotFound)
      else PutPerson(s, rp.existingID.value, Updated(s.races, s.people[rp.existingID.value], row, rp, newIDs))
    case _ => Ok(s)
  }

  /** The writes of the first n rows; the first failure aborts them all. */
  function ApplyRows(s: State, rows: seq<ImportRow>, plans: seq<RowPlan>, newIDs: map<string, string>, freshIDs: seq<string>, n: nat)
    : Result<State, Failure>
    requires n <= |rows| == |plans| == |freshIDs|
  {
    if n == 0 then Ok(s)
    else match ApplyRows(s, rows, plans, newIDs, freshIDs, n - 1)
      case Err(e) => Err(e)
      case Ok(s1) => ApplyRow(s1, rows[n - 1], plans[n - 1], newIDs, freshIDs[n - 1])
  }

  /** Inserting the first n planned teams under fresh ids. */
  function AddTeams(s: State, planned: seq<PlannedTeam>, ids: seq<string>, n: nat): Result<State, Failure>
    requires n <= |planned| == |ids|
  {
    if n == 0 then Ok(s)
    else match AddTeams(s, planned, ids, n - 1)
      case Err(e) => Err(e)
      case Ok(s1) => PutTeam(s1, ids[n - 1], Team(planned[n - 1].raceID, planned[n - 1].name, planned[n - 1].category))
  }

  function NewIDs(planned: seq<PlannedTeam>, ids: seq<string>, n: nat): map<string, string>
    requires n <= |planned| == |ids|
  {
    if n == 0 then map[] else NewIDs(planned, ids, n - 1)[planned[n - 1].key := ids[n - 1]]
  }

  /** The whole execution of a plan. */
  function ApplyPlan(s: State, rows: seq<ImportRow>, plan: Plan, teamIDs: seq<string>, freshIDs: seq<string>): Result<State, Failure>
    requires |plan.newTeams| == |teamIDs| && |rows| == |plan.rows| == |freshIDs|
  {
    match AddTeams(s, plan.newTeams, teamIDs, |plan.newTeams|)
    case Err(e) => Err(e)
    case Ok(s1) => ApplyRows(s1, rows, plan.rows, NewIDs(plan.newTeams, teamIDs, |plan.newTeams|), freshIDs, |rows|)
  }
}
