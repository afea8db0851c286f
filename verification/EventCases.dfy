/** What each registration use case does to the stored state, one transaction
    at a time (internal/participant/service.go, internal/event/service.go). */
module EventCases {
  import opened Wrappers
  import opened Text
  import opened Registration
  import opened InputRules
  import opened TeamRules
  import opened Columns
  import opened EventState
  import opened ImportApply

  // ---- joining a team

  /** The members of a team, leaving out the person being edited. */
  function OtherMembers(s: State, t: string, exclude: Option<string>): map<string, Participant> {
    map q | q in MembersOf(s.people, t) && Some(q) != exclude :: s.people[q]
  }

  ghost predicate LegHeld(members: map<string, Participant>, leg: Option<int>) {
    leg.Some? && exists q :: q in members && members[q].legOrder == leg
  }

  /** The category's gender rule on a team of `count` people, of whom `members`
      are known and one more may have gender `extra`. */
  ghost predicate GendersFit(category: Category, size: int, members: map<string, Participant>, extra: Option<Gender>) {
    var count := |members| + if extra.Some? then 1 else 0;
    match category
    case MaleTeam => (forall q :: q in members ==> members[q].gender == Male) && (extra.Some? ==> extra.value == Male)
    case FemaleTeam => (forall q :: q in members ==> members[q].gender == Female) && (extra.Some? ==> extra.value == Female)
    case MixedTeam =>
      || ((HasGender(members, Male) || extra == Some(Male)) && (HasGender(members, Female) || extra == Some(Female)))
      || !(0 < size <= count)
    case _ => true
  }

  /** Why putting the person in the team would break a rule, if it would. */
  ghost function JoinFailure(s: State, raceID: string, input: Input, exclude: Option<string>): Option<Failure>
    requires raceID in s.races
  {
    if input.teamID.None? then None
    else
      var t, size := input.teamID.value, s.races[raceID].Size();
      if t !in s.teams || s.teams[t].raceID != raceID then Some(Invalid(TeamIDField))
      else
        var others := OtherMembers(s, t, exclude);
        if LegHeld(others, input.legOrder) then Some(LegTaken)
        else if 0 < size < |others| + 1 then Some(TeamFull)
        else if !GendersFit(s.teams[t].category, size, others, Some(input.gender)) then Some(Invalid(GenderField))
        else None
  }

  // ---- participants

  function PersonOf(raceID: string, input: Input): Participant {
    Participant(raceID, input.teamID, input.legOrder, input.bib, input.gender, input.refID, input.details)
  }

  function InputOf(p: Participant): Input {
    Input(p.details, p.bib, p.gender, p.refID, p.teamID, p.legOrder)
  }

  /** The rules an input is held to before it is written; `lenient` lets a
      person who has no team stay without one. */
  ghost function InputFailure(s: State, raceID: string, input: Input, bad: string, lenient: bool, exclude: Option<string>): Option<Failure> {
    if bad != "" then Some(Invalid(BloodTypeField))
    else if raceID !in s.races then Some(Invalid(RaceField))
    else
      var race := s.races[raceID];
      var broken := Validate(input, race);
      if broken.Some? && !(lenient && race.IsTeam() && input.teamID.None? && broken.value == TeamIDField) then Some(Invalid(broken.value))
      else JoinFailure(s, raceID, input, exclude)
  }

  ghost function CreatePerson(s: State, id: string, raceID: string, supplied: Input): Result<State, Failure> {
    var (input, bad) := Normalize(supplied);
    var failure := InputFailure(s, raceID, input, bad, false, None);
    if failure.Some? then Err(failure.value) else PutPerson(s, id, PersonOf(raceID, input))
  }

  /** A change to a person: None keeps what is stored. Texts and the team are blanked
      by "", the leg by 0. */
  datatype Patch = Patch(
    raceID: Option<string>,
    firstName: Option<string>,
    lastName: Option<string>,
    bibName: Option<string>,
    bib: Option<int>,
    gender: Option<Gender>,
    refID: Option<string>,
    email: Option<string>,
    club: Option<string>,
    emergencyName: Option<string>,
    emergencyPhone: Option<string>,
    bloodType: Option<string>,
    status: Option<Status>,
    teamID: Option<string>,
    legOrder: Option<int>)

  const NO_PATCH := Patch(None, None, None, None, None, None, None, None, None, None, None, None, None, None, None)

  function Or<T>(supplied: Option<T>, stored: T): T {
    if supplied.Some? then supplied.value else stored
  }

  function RaceAfter(p: Participant, patch: Patch): string {
    Or(patch.raceID, p.raceID)
  }

  function PatchedDetails(d: Details, patch: Patch): Details {
    Details(Or(patch.firstName, d.firstName), Keep(d.lastName, patch.lastName), Keep(d.bibName, patch.bibName),
            Keep(d.email, patch.email), Keep(d.club, patch.club), Keep(d.emergencyName, patch.emergencyName),
            Keep(d.emergencyPhone, patch.emergencyPhone), Keep(d.bloodType, patch.bloodType), Or(patch.status, d.status))
  }

  /** The stored fields with the patch over them. Moving to another race drops
      the team and the leg unless the patch gives new ones. */
  function Patched(p: Participant, patch: Patch): Input {
    var moves := patch.raceID.Some? && patch.raceID.value != p.raceID;
    Input(
      PatchedDetails(p.details, patch),
      Or(patch.bib, p.bib),
      Or(patch.gender, p.gender),
      Keep(p.refID, patch.refID),
      Keep(if moves then None else p.teamID, patch.teamID),
      if patch.legOrder == Some(0) then None else Keep(if moves then None else p.legOrder, patch.legOrder))
  }

  ghost function UpdatePerson(s: State, id: string, patch: Patch): Result<State, Failure> {
    if id !in s.people then Err(NotFound)
    else
      var p := s.people[id];
      var (input, bad) := Normalize(Patched(p, patch));
      var failure := InputFailure(s, RaceAfter(p, patch), input, bad, p.teamID.None?, Some(id));
      if failure.Some? then Err(failure.value) else PutPerson(s, id, PersonOf(RaceAfter(p, patch), input))
  }

  function DeletePeople(s: State, selected: set<string>): State {
    s.(people := s.people - selected)
  }

  function SetStatus(s: State, selected: set<string>, status: Status): Result<State, Failure> {
    if status != Registered && status != DidNotStart then Err(Invalid(StatusField))
    else Ok(s.(people := map q | q in s.people ::
                 if q in selected then s.people[q].(details := s.people[q].details.(status := status)) else s.people[q]))
  }

  // ---- teams

  function ValidateTeam(name: string, category: Category, race: RaceFormat): Option<Field> {
    if Trim(name) == "" then Some(NameField)
    else if !category.Valid() then Some(CategoryField)
    else if !race.IsTeam() then Some(RaceField)
    else None
  }

  function CreateTeam(s: State, id: string, raceID: string, name: string, category: Category): Result<State, Failure> {
    if raceID !in s.races then Err(Invalid(RaceField))
    else
      var broken := ValidateTeam(name, category, s.races[raceID]);
      if broken.Some? then Err(Invalid(broken.value)) else PutTeam(s, id, Team(raceID, Trim(name), category))
  }

  /** New values replace the team's name and category; whenever a category is sent, its
      members must suit it. */
  ghost function UpdateTeam(s: State, id: string, name: Option<string>, category: Option<Category>): Result<State, Failure> {
    if id !in s.teams then Err(NotFound)
    else
      var team := s.teams[id].(name := Or(name, s.teams[id].name), category := Or(category, s.teams[id].category));
      if team.raceID !in s.races then Err(Invalid(RaceField))
      else
        var race := s.races[team.raceID];
        var broken := ValidateTeam(team.name, team.category, race);
        if broken.Some? then Err(Invalid(broken.value))
        else if category.Some? && !GendersFit(team.category, race.Size(), MembersOf(s.people, id), None) then Err(Invalid(GenderField))
        else PutTeam(s, id, team.(name := Trim(team.name)))
  }

  /** The members leave the team and stay registered. */
  function Detach(people: map<string, Participant>, t: string): map<string, Participant> {
    map q | q in people :: if people[q].teamID == Some(t) then people[q].(teamID := None, legOrder := None) else people[q]
  }

  /** Deleting a team row deletes the participants that still refer to it. */
  function DropTeam(s: State, t: string): State {
    s.(teams := s.teams - {t}, people := map q | q in s.people && s.people[q].teamID != Some(t) :: s.people[q])
  }

  function DeleteTeam(s: State, id: string, withMembers: bool): Result<State, Failure> {
    if id !in s.teams then Err(NotFound)
    else Ok(DropTeam(if withMembers then s else s.(people := Detach(s.people, id)), id))
  }

  // ---- races

  datatype FormatPatch = FormatPatch(
    entry: Option<EntryType>,
    course: Option<CourseType>,
    teamSize: Option<int>,
    loopMode: Option<LoopMode>,
    loopLengthKM: Option<real>,
    loopTargetLaps: Option<int>,
    loopTimeLimitMS: Option<int>)

  function ApplyFormat(f: RaceFormat, patch: FormatPatch): RaceFormat {
    RaceFormat(Or(patch.entry, f.entry), Or(patch.course, f.course), Keep(f.teamSize, patch.teamSize), Keep(f.loopMode, patch.loopMode),
               Keep(f.loopLengthKM, patch.loopLengthKM), Keep(f.loopTargetLaps, patch.loopTargetLaps),
               Keep(f.loopTimeLimitMS, patch.loopTimeLimitMS))
  }

  /** Inserts or rewrites the format of a race, as far as its columns keep it. */
  function PutRace(s: State, id: string, format: RaceFormat): Result<State, Failure> {
    if KeptFormat(format).None? then Err(OutOfRange) else Ok(s.(races := s.races[id := KeptFormat(format).value]))
  }

  function CreateRace(s: State, id: string, format: RaceFormat): Result<State, Failure> {
    if !FormatValid(NormalizeFormat(format)) then Err(Invalid(FormatField))
    else PutRace(s, id, NormalizeFormat(format))
  }

  predicate HasParticipants(s: State, raceID: string) {
    exists q :: q in s.people && s.people[q].raceID == raceID
  }

  /** A race's format is locked once somebody is registered in it. */
  function UpdateRace(s: State, id: string, patch: FormatPatch): Result<State, Failure> {
    if id !in s.races then Err(NotFound)
    else
      var format := NormalizeFormat(ApplyFormat(s.races[id], patch));
      if !FormatValid(format) then Err(Invalid(FormatField))
      else if format != s.races[id] && HasParticipants(s, id) then Err(FormatLocked)
      else PutRace(s, id, format)
  }

  /** Deleting a race deletes its teams and participants, and a deleted team
      deletes whoever refers to it. */
  function DeleteRace(s: State, id: string): Result<State, Failure> {
    if id !in s.races then Err(NotFound)
    else
      var teams := map t | t in s.teams && s.teams[t].raceID != id :: s.teams[t];
      Ok(State(s.races - {id}, teams,
               map q | q in s.people && s.people[q].raceID != id
                       && (s.people[q].teamID.Some? && s.people[q].teamID.value in s.teams ==> s.people[q].teamID.value in teams)
                     :: s.people[q]))
  }
}
