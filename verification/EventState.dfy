/** The stored rows of one event, the writes a repository accepts, and the team
    rules every use case must keep. */
module EventState {
  import opened Wrappers
  import opened Registration
  import opened Columns

  datatype State = State(
    races: map<string, RaceFormat>,
    teams: map<string, Team>,
    people: map<string, Participant>)

  datatype Failure =
    | NotFound | BibTaken | LegTaken | RefTaken | TeamNameTaken
    | Invalid(field: Field) | TeamFull | FormatLocked | EmptyImport | TooManyRows | OutOfRange

  // ---- the unique constraints, and the writes that enforce them

  predicate BibFree(s: State, id: string, bib: int) {
    forall q :: q in s.people && q != id ==> s.people[q].bib != bib
  }

  predicate RefFree(s: State, id: string, ref: Option<string>) {
    ref.Some? ==> forall q :: q in s.people && q != id ==> s.people[q].refID != ref
  }

  /** participants_team_leg_uk: one member per leg of a team. */
  predicate LegFree(s: State, id: string, team: Option<string>, leg: Option<int>) {
    team.Some? && leg.Some? ==>
      forall q :: q in s.people && q != id ==> !(s.people[q].teamID == team && s.people[q].legOrder == leg)
  }

  /** teams_race_name_uk: one team per name in a race. */
  predicate NameFree(s: State, id: string, raceID: string, name: string) {
    forall t :: t in s.teams && t != id ==> !(s.teams[t].raceID == raceID && s.teams[t].name == name)
  }

  /** Inserts or rewrites one participant row; numbers are converted before any
      constraint is looked at. */
  function PutPerson(s: State, id: string, p: Participant): Result<State, Failure> {
    if !Storable(p) then Err(OutOfRange)
    else if !BibFree(s, id, p.bib) then Err(BibTaken)
    else if !RefFree(s, id, p.refID) then Err(RefTaken)
    else if !LegFree(s, id, p.teamID, p.legOrder) then Err(LegTaken)
    else Ok(s.(people := s.people[id := p]))
  }

  /** Inserts or rewrites one team row. */
  function PutTeam(s: State, id: string, t: Team): Result<State, Failure> {
    if !NameFree(s, id, t.raceID, t.name) then Err(TeamNameTaken)
    else Ok(s.(teams := s.teams[id := t]))
  }

  ghost predicate DistinctBibs(s: State) {
    forall q :: q in s.people ==> BibFree(s, q, s.people[q].bib)
  }

  ghost predicate DistinctRefs(s: State) {
    forall q :: q in s.people ==> RefFree(s, q, s.people[q].refID)
  }

  ghost predicate DistinctNames(s: State) {
    forall t :: t in s.teams ==> NameFree(s, t, s.teams[t].raceID, s.teams[t].name)
  }

  ghost predicate DistinctKeys(s: State) {
    DistinctBibs(s) && DistinctRefs(s) && DistinctNames(s)
  }

  /** No two members of a team hold one leg. */
  ghost predicate DistinctLegs(s: State) {
    forall q :: q in s.people ==> LegFree(s, q, s.people[q].teamID, s.people[q].legOrder)
  }

  /** A participant write is accepted exactly when its numbers fit the columns and
      the table after it has no BIB, no ref_id and no leg of a team twice, and it
      rewrites that one row only. */
  lemma {:induction false} WriteIsExact(s: State, id: string, p: Participant)
    requires DistinctKeys(s) && DistinctLegs(s)
    ensures var after := s.(people := s.people[id := p]);
            && (PutPerson(s, id, p).Ok? <==> Storable(p) && DistinctBibs(after) && DistinctRefs(after) && DistinctLegs(after))
            && (PutPerson(s, id, p).Ok? ==> PutPerson(s, id, p).value == after)
  {
    var after := s.(people := s.people[id := p]);
    assert after.people[id] == p;
    if PutPerson(s, id, p).Ok? {
      forall q | q in after.people
        ensures BibFree(after, q, after.people[q].bib) && RefFree(after, q, after.people[q].refID)
        ensures LegFree(after, q, after.people[q].teamID, after.people[q].legOrder)
      {
      }
    }
    if Storable(p) && DistinctBibs(after) && DistinctRefs(after) && DistinctLegs(after) {
      assert BibFree(after, id, p.bib) && RefFree(after, id, p.refID) && LegFree(after, id, p.teamID, p.legOrder);
      assert forall q :: q in s.people && q != id ==> after.people[q] == s.people[q];
    }
  }

  lemma {:induction false} PutPersonKeepsKeys(s: State, id: string, p: Participant)
    requires DistinctKeys(s) && PutPerson(s, id, p).Ok?
    ensures DistinctKeys(PutPerson(s, id, p).value)
  {
    var s' := PutPerson(s, id, p).value;
    forall q | q in s'.people
      ensures BibFree(s', q, s'.people[q].bib) && RefFree(s', q, s'.people[q].refID)
    {
    }
    forall t | t in s'.teams
      ensures NameFree(s', t, s'.teams[t].raceID, s'.teams[t].name)
    {
      assert NameFree(s, t, s.teams[t].raceID, s.teams[t].name);
    }
  }

  // ---- the team rules

  function MembersOf(people: map<string, Participant>, t: string): map<string, Participant> {
    map q | q in people && people[q].teamID == Some(t) :: people[q]
  }

  /** One member's record suits the team it is in. */
  predicate MemberSuits(team: Team, race: RaceFormat, p: Participant) {
    && p.raceID == team.raceID
    && (if race.IsRelay() then p.legOrder.Some? && 1 <= p.legOrder.value <= race.Size() else p.legOrder.None?)
    && (team.category == MaleTeam ==> p.gender == Male)
    && (team.category == FemaleTeam ==> p.gender == Female)
  }

  ghost predicate LegsDiffer(members: map<string, Participant>) {
    forall q1, q2 :: q1 in members && q2 in members && q1 != q2 && members[q1].legOrder.Some? ==>
      members[q1].legOrder != members[q2].legOrder
  }

  ghost predicate HasGender(members: map<string, Participant>, g: Gender) {
    exists q :: q in members && members[q].gender == g
  }

  /** A mixed team that is full has both genders. */
  ghost predicate MixesWhenFull(team: Team, race: RaceFormat, members: map<string, Participant>) {
    team.category == MixedTeam && |members| >= race.Size() ==> HasGender(members, Male) && HasGender(members, Female)
  }

  /** The rules of one team: members share its race, which is a team race; they
      are no more than its size; in a relay they hold distinct legs in 1..size;
      a male or female team holds that gender only; a full mixed team holds both. */
  ghost predicate TeamFine(team: Team, race: RaceFormat, members: map<string, Participant>) {
    members != map[] ==>
      && race.IsTeam()
      && |members| <= race.Size()
      && (forall q :: q in members ==> MemberSuits(team, race, members[q]))
      && LegsDiffer(members)
      && MixesWhenFull(team, race, members)
  }

  ghost predicate Linked(s: State) {
    && (forall t :: t in s.teams ==> s.teams[t].raceID in s.races)
    && (forall q :: q in s.people ==>
          && s.people[q].raceID in s.races
          && (s.people[q].teamID.Some? ==> s.people[q].teamID.value in s.teams))
  }

  ghost predicate TeamsFine(s: State)
    requires Linked(s)
  {
    forall t :: t in s.teams ==> TeamFine(s.teams[t], s.races[s.teams[t].raceID], MembersOf(s.people, t))
  }

  /** What every use case keeps. */
  ghost predicate Valid(s: State) {
    && (forall r :: r in s.races ==> FormatKept(s.races[r]))
    && Linked(s)
    && DistinctKeys(s)
    && TeamsFine(s)
  }

  lemma {:induction false} SubmapSize(part: map<string, Participant>, whole: map<string, Participant>)
    requires part.Keys <= whole.Keys
    ensures |part| <= |whole|
    ensures |part| == |whole| ==> part.Keys == whole.Keys
  {
    assert whole.Keys == part.Keys + (whole.Keys - part.Keys);
    assert |whole.Keys| == |part.Keys| + |whole.Keys - part.Keys|;
  }

  /** Losing members breaks no rule of a team. */
  lemma {:induction false} LeavingKeepsTeam(team: Team, race: RaceFormat, before: map<string, Participant>, after: map<string, Participant>)
    requires TeamFine(team, race, before)
    requires after.Keys <= before.Keys && forall q :: q in after ==> after[q] == before[q]
    ensures TeamFine(team, race, after)
  {
    SubmapSize(after, before);
    if after != map[] {
      var q :| q in after;
      assert before != map[];
      if team.category == MixedTeam && |after| >= race.Size() {
        assert after == before;
      }
    }
  }

  /** In a valid state no two members of a team hold one leg. */
  lemma {:induction false} ValidLegsDiffer(s: State)
    requires Valid(s)
    ensures DistinctLegs(s)
  {
    forall q | q in s.people
      ensures LegFree(s, q, s.people[q].teamID, s.people[q].legOrder)
    {
      forall p | p in s.people && p != q && s.people[q].legOrder.Some? && s.people[q].teamID.Some? && s.people[p].teamID == s.people[q].teamID
        ensures s.people[p].legOrder != s.people[q].legOrder
      {
        MembersLegsDiffer(s, s.people[q].teamID.value, q, p);
      }
    }
  }

  lemma {:induction false} MembersLegsDiffer(s: State, t: string, q: string, p: string)
    requires Valid(s) && q in MembersOf(s.people, t) && p in MembersOf(s.people, t) && p != q && s.people[q].legOrder.Some?
    ensures s.people[p].legOrder != s.people[q].legOrder
  {
    var members := MembersOf(s.people, t);
    assert TeamFine(s.teams[t], s.races[s.teams[t].raceID], members);
    assert LegsDiffer(members);
    assert members[q] == s.people[q] && members[p] == s.people[p];
  }
}
