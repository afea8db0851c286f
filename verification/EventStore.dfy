/** The registration service over its tables: each method is one transaction,
    and does to the fields exactly what the use case says
    (internal/participant/service.go, import_service.go, repository.go,
    internal/event/service.go). */
module EventStore {
  import opened Wrappers
  import opened Text
  import opened Registration
  import opened InputRules
  import opened TeamRules
  import opened Columns
  import opened ImportPlan
  import opened ImportPlanner
  import opened EventState
  import opened ImportApply
  import opened ImportSafety
  import opened ImportRefinement
  import opened EventCases
  import opened EventRuns

  // ---- listing a set of rows in some order

  ghost predicate ListsIds(ids: seq<string>, of: set<string>) {
    && (forall q :: q in ids <==> q in of)
    && (forall j, k :: 0 <= j < k < |ids| ==> ids[j] != ids[k])
  }

  lemma {:induction false} ListingHasItsSize(ids: seq<string>, of: set<string>)
    requires ListsIds(ids, of)
    ensures |ids| == |of|
  {
    if ids != [] {
      var last, rest := ids[|ids| - 1], ids[..|ids| - 1];
      assert ids == rest + [last];
      assert last !in rest;
      ListingHasItsSize(rest, of - {last});
    }
  }

  /** The rows of a table, in whatever order the database returns them. */
  method ListIds(of: set<string>) returns (ids: seq<string>)
    ensures ListsIds(ids, of)
  {
    var todo := of;
    ids := [];
    while todo != {}
      invariant todo <= of
      invariant ListsIds(ids, of - todo)
      decreases |todo|
    {
      var q :| q in todo;
      ids := ids + [q];
      todo := todo - {q};
    }
  }

  // ---- the gender rule on a listing and on the members themselves

  function GendersOf(people: map<string, Participant>, ids: seq<string>): (gs: seq<Gender>)
    requires forall k :: 0 <= k < |ids| ==> ids[k] in people
    ensures |gs| == |ids|
  {
    seq(|ids|, k requires 0 <= k < |ids| => people[ids[k]].gender)
  }

  lemma {:induction false} ListedGenders(members: map<string, Participant>, ids: seq<string>)
    requires ListsIds(ids, members.Keys)
    ensures forall k :: 0 <= k < |ids| ==> ids[k] in members
    ensures |ids| == |members|
    ensures forall g :: g in GendersOf(members, ids) <==> HasGender(members, g)
  {
    assert forall k :: 0 <= k < |ids| ==> ids[k] in ids;
    ListingHasItsSize(ids, members.Keys);
    var gs := GendersOf(members, ids);
    forall g
      ensures g in gs <==> HasGender(members, g)
    {
      if g in gs {
        var k :| 0 <= k < |gs| && gs[k] == g;
        assert members[ids[k]].gender == g;
      }
      if HasGender(members, g) {
        var q :| q in members && members[q].gender == g;
        var k :| 0 <= k < |ids| && ids[k] == q;
        assert gs[k] == g;
      }
    }
  }

  /** Composing the genders of a listing, in any order, is the category's rule. */
  lemma {:induction false} ComposedGendersFit(category: Category, size: int, members: map<string, Participant>, ids: seq<string>)
    requires ListsIds(ids, members.Keys)
    ensures forall k :: 0 <= k < |ids| ==> ids[k] in members
    ensures Compose(category, size, GendersOf(members, ids)) != Clash <==> GendersFit(category, size, members, None)
  {
    ListedGenders(members, ids);
    MembersShowGenders(members);
  }

  lemma MembersShowGenders(members: map<string, Participant>)
    ensures forall q :: q in members ==> HasGender(members, members[q].gender)
  {
  }

  lemma {:induction false} JoiningGendersFit(category: Category, size: int, members: map<string, Participant>, ids: seq<string>, extra: Gender)
    requires ListsIds(ids, members.Keys)
    ensures forall k :: 0 <= k < |ids| ==> ids[k] in members
    ensures Compose(category, size, [extra] + GendersOf(members, ids)) != Clash <==> GendersFit(category, size, members, Some(extra))
  {
    ListedGenders(members, ids);
    MembersShowGenders(members);
    var genders := [extra] + GendersOf(members, ids);
    assert |genders| == 1 + |members|;
    assert forall g :: g in genders <==> g == extra || HasGender(members, g);
    AllOfGender(members, genders, extra, Male);
    AllOfGender(members, genders, extra, Female);
  }

  lemma {:induction false} AllOfGender(members: map<string, Participant>, genders: seq<Gender>, extra: Gender, want: Gender)
    requires forall g :: g in genders <==> g == extra || HasGender(members, g)
    ensures (forall g <- genders :: g == want) <==> extra == want && forall q :: q in members ==> members[q].gender == want
  {
    MembersShowGenders(members);
    if forall g <- genders :: g == want {
      assert extra in genders;
      assert forall q :: q in members ==> members[q].gender in genders;
    }
  }

  /** The listed members kept so far, leaving out the one being edited. */
  ghost predicate Kept(others: map<string, Participant>, ids: seq<string>, exclude: Option<string>, kept: seq<string>) {
    && (forall q :: q in kept <==> q in ids && Some(q) != exclude)
    && (forall i, j :: 0 <= i < j < |kept| ==> kept[i] != kept[j])
    && (forall i :: 0 <= i < |kept| ==> kept[i] in others)
  }

  lemma {:induction false} KeepNext(others: map<string, Participant>, ids: seq<string>, k: nat, exclude: Option<string>, kept: seq<string>)
    requires k < |ids| && Kept(others, ids[..k], exclude, kept)
    requires forall i, j :: 0 <= i < j < |ids| ==> ids[i] != ids[j]
    requires Some(ids[k]) != exclude ==> ids[k] in others
    ensures Some(ids[k]) != exclude ==>
              && Kept(others, ids[..k + 1], exclude, kept + [ids[k]])
              && GendersOf(others, kept + [ids[k]]) == GendersOf(others, kept) + [others[ids[k]].gender]
    ensures Some(ids[k]) == exclude ==> Kept(others, ids[..k + 1], exclude, kept)
  {
    assert ids[..k + 1] == ids[..k] + [ids[k]];
    assert ids[k] !in ids[..k];
  }

  lemma {:induction false} AllKept(others: map<string, Participant>, all: map<string, Participant>, ids: seq<string>, exclude: Option<string>, kept: seq<string>)
    requires ListsIds(ids, all.Keys) && Kept(others, ids, exclude, kept)
    requires forall q :: q in others <==> q in all && Some(q) != exclude
    ensures ListsIds(kept, others.Keys) && |kept| == |others|
  {
    ListingHasItsSize(kept, others.Keys);
  }

  /** None of them holds the leg. */
  ghost predicate NoneHolds(others: map<string, Participant>, kept: seq<string>, leg: Option<int>) {
    leg.Some? ==> forall q :: q in kept && q in others ==> others[q].legOrder != leg
  }

  /** What the first k listed members came to: who they are besides the one being
      edited, their genders and number with the newcomer, and that none holds the leg. */
  ghost predicate Screened(others: map<string, Participant>, ids: seq<string>, k: nat, exclude: Option<string>, input: Input,
                           kept: seq<string>, genders: seq<Gender>, count: int) {
    && k <= |ids| && Kept(others, ids[..k], exclude, kept)
    && genders == [input.gender] + GendersOf(others, kept) && count == 1 + |kept|
    && NoneHolds(others, kept, input.legOrder)
  }

  lemma {:induction false} ScreenNext(others: map<string, Participant>, ids: seq<string>, k: nat, exclude: Option<string>, input: Input,
                                      kept: seq<string>, genders: seq<Gender>, count: int)
    requires k < |ids| && Screened(others, ids, k, exclude, input, kept, genders, count)
    requires forall i, j :: 0 <= i < j < |ids| ==> ids[i] != ids[j]
    requires Some(ids[k]) != exclude ==> ids[k] in others
    ensures Some(ids[k]) == exclude ==> Screened(others, ids, k + 1, exclude, input, kept, genders, count)
    ensures Some(ids[k]) != exclude && !(input.legOrder.Some? && others[ids[k]].legOrder == input.legOrder) ==>
              Screened(others, ids, k + 1, exclude, input, kept + [ids[k]], genders + [others[ids[k]].gender], count + 1)
  {
    KeepNext(others, ids, k, exclude, kept);
  }

  // ---- the members of every team, from one listing of the people

  function MembersAmong(people: map<string, Participant>, ids: seq<string>, t: string): seq<Existing> {
    if ids == [] then []
    else
      var q := ids[|ids| - 1];
      MembersAmong(people, ids[..|ids| - 1], t)
      + if q in people && people[q].teamID == Some(t) then [MemberView(q, people[q])] else []
  }

  lemma {:induction false} MembersAmongAreMembers(people: map<string, Participant>, ids: seq<string>, t: string, m: Existing)
    requires m in MembersAmong(people, ids, t)
    ensures m.id in ids && m.id in people && people[m.id].teamID == Some(t) && m == MemberView(m.id, people[m.id])
  {
    var front, q := ids[..|ids| - 1], ids[|ids| - 1];
    assert ids == front + [q];
    if m in MembersAmong(people, front, t) {
      MembersAmongAreMembers(people, front, t, m);
    }
  }

  lemma {:induction false} MembersAmongDiffer(people: map<string, Participant>, ids: seq<string>, t: string)
    requires forall j, k :: 0 <= j < k < |ids| ==> ids[j] != ids[k]
    ensures forall j, k :: 0 <= j < k < |MembersAmong(people, ids, t)| ==>
              MembersAmong(people, ids, t)[j].id != MembersAmong(people, ids, t)[k].id
  {
    if ids != [] {
      var front := ids[..|ids| - 1];
      MembersAmongDiffer(people, front, t);
      var before := MembersAmong(people, front, t);
      forall j | 0 <= j < |before|
        ensures before[j].id != ids[|ids| - 1]
      {
        MembersAmongAreMembers(people, front, t, before[j]);
      }
    }
  }

  lemma {:induction false} MembersAmongAreAll(people: map<string, Participant>, ids: seq<string>, t: string, q: string)
    requires q in ids && q in people && people[q].teamID == Some(t)
    ensures MemberView(q, people[q]) in MembersAmong(people, ids, t)
  {
    if q != ids[|ids| - 1] {
      assert ids == ids[..|ids| - 1] + [ids[|ids| - 1]];
      MembersAmongAreAll(people, ids[..|ids| - 1], t, q);
    }
  }

  lemma {:induction false} MembersAreListed(people: map<string, Participant>, ids: seq<string>, t: string)
    requires ListsIds(ids, people.Keys)
    ensures ListsMembers(MembersAmong(people, ids, t), MembersOf(people, t))
  {
    var ms := MembersAmong(people, ids, t);
    forall k | 0 <= k < |ms|
      ensures ms[k].id in MembersOf(people, t) && ms[k] == MemberView(ms[k].id, people[ms[k].id])
    {
      MembersAmongAreMembers(people, ids, t, ms[k]);
    }
    MembersAmongDiffer(people, ids, t);
    forall q | q in MembersOf(people, t)
      ensures exists k :: 0 <= k < |ms| && ms[k].id == q
    {
      MembersAmongAreAll(people, ids, t, q);
      var k :| 0 <= k < |ms| && ms[k] == MemberView(q, people[q]);
    }
  }

  function TeamMembers(byTeam: map<string, seq<Existing>>, t: string): seq<Existing> {
    if t in byTeam then byTeam[t] else []
  }

  /** Each team's entry holds its members among the listed people. */
  ghost predicate Grouped(byTeam: map<string, seq<Existing>>, people: map<string, Participant>, ids: seq<string>) {
    forall t :: TeamMembers(byTeam, t) == MembersAmong(people, ids, t)
  }

  lemma {:induction false} GroupNext(byTeam: map<string, seq<Existing>>, people: map<string, Participant>, ids: seq<string>, q: string)
    requires q in people && Grouped(byTeam, people, ids)
    ensures var team := people[q].teamID;
            Grouped(if team.Some? then byTeam[team.value := TeamMembers(byTeam, team.value) + [MemberView(q, people[q])]] else byTeam,
                    people, ids + [q])
  {
    assert (ids + [q])[..|ids|] == ids;
    forall t
      ensures MembersAmong(people, ids + [q], t) ==
              MembersAmong(people, ids, t) + if people[q].teamID == Some(t) then [MemberView(q, people[q])] else []
    {
    }
  }

  lemma {:induction false} GroupedIsListed(byTeam: map<string, seq<Existing>>, people: map<string, Participant>, ids: seq<string>)
    requires ListsIds(ids, people.Keys) && Grouped(byTeam, people, ids)
    ensures forall t :: ListsMembers(TeamMembers(byTeam, t), MembersOf(people, t))
  {
    forall t
      ensures ListsMembers(TeamMembers(byTeam, t), MembersOf(people, t))
    {
      MembersAreListed(people, ids, t);
    }
  }

  ghost predicate TeamIsListed(e: ExistingTeam, s: State) {
    && e.id in s.teams && s.teams[e.id] == Team(e.raceID, e.name, e.category)
    && ListsMembers(e.members, MembersOf(s.people, e.id))
  }

  // ---- an import plans no more teams than it has rows

  lemma {:induction false} FewKeys(d: Draft, n: nat)
    requires n <= |d.entries|
    ensures |KeysUpTo(d, n)| <= n
  {
    if n > 0 {
      FewKeys(d, n - 1);
    }
  }

  lemma {:induction false} FewTeams(d: Draft, keys: seq<string>)
    ensures |TeamsFor(d, keys)| <= |keys|
  {
    if keys != [] {
      FewTeams(d, keys[..|keys| - 1]);
    }
  }

  lemma {:induction false} FewPlanned(batch: PlanInput)
    ensures |PlanOf(batch).newTeams| <= |batch.rows|
  {
    FewKeys(DraftOf(batch), |batch.rows|);
    FewTeams(DraftOf(batch), Keys(DraftOf(batch)));
  }

  // ---- a failed write ends the import

  lemma {:induction false} FailureEndsRows(s: State, rows: seq<ImportRow>, plans: seq<RowPlan>, newIDs: map<string, string>, freshIDs: seq<string>, i: nat, n: nat)
    requires i <= n <= |rows| == |plans| == |freshIDs| && ApplyRows(s, rows, plans, newIDs, freshIDs, i).Err?
    ensures ApplyRows(s, rows, plans, newIDs, freshIDs, n) == ApplyRows(s, rows, plans, newIDs, freshIDs, i)
  {
    if i < n {
      FailureEndsRows(s, rows, plans, newIDs, freshIDs, i, n - 1);
    }
  }

  lemma {:induction false} FailureEndsTeams(s: State, planned: seq<PlannedTeam>, ids: seq<string>, i: nat, n: nat)
    requires i <= n <= |planned| == |ids| && AddTeams(s, planned, ids, i).Err?
    ensures AddTeams(s, planned, ids, n) == AddTeams(s, planned, ids, i)
  {
    if i < n {
      FailureEndsTeams(s, planned, ids, i, n - 1);
    }
  }

  lemma {:induction false} BibsFitMeans(rows: seq<ImportRow>)
    ensures (forall b :: b in BibsOf(rows) ==> FitsInt4(b)) <==> BibsFit(rows)
  {
    forall i | 0 <= i < |rows| && rows[i].input.bib > 0
      ensures rows[i].input.bib in BibsOf(rows)
    {
    }
  }

  /** What was loaded, with ids taken from the fresh ones, supplies the import. */
  lemma {:induction false} SupplyFits(s: State, req: ImportRequest, batch: PlanInput, teamPool: seq<string>, freshIDs: seq<string>)
    requires batch == BatchOf(s, req, batch.existing, batch.teams)
    requires ListsPeople(batch.existing, Loaded(s.people, BibsOf(batch.rows), RefsOf(batch.rows))) && ListsTeams(batch.teams, s)
    requires forall r :: r in s.races ==> Barless(r)
    requires |PlanOf(batch).newTeams| <= |teamPool| && |freshIDs| == |batch.rows|
    requires IdsAreNew(teamPool, s.teams.Keys) && IdsAreNew(freshIDs, s.people.Keys)
    ensures Supplies(s, req, Supply(batch.existing, batch.teams, teamPool[..|PlanOf(batch).newTeams|], freshIDs))
  {
  }

  datatype ImportResult = ImportResult(dryRun: bool, plan: Plan, created: nat, updated: nat, skipped: nat, errors: nat, newTeams: nat)

  /** The state and the failure agree with an outcome: all of it, or nothing. */
  ghost predicate Settles(before: State, now: State, failure: Option<Failure>, outcome: Result<State, Failure>) {
    match outcome
    case Ok(s) => failure.None? && now == s
    case Err(e) => failure == Some(e) && now == before
  }

  function FailureOf<T>(result: Result<T, Failure>): Option<Failure> {
    if result.Ok? then None else Some(result.error)
  }

  /** What an import tells its caller. */
  function ReportOf(req: ImportRequest, plan: Plan): ImportResult {
    ImportResult(req.dryRun, plan, CountAction(plan.rows, Create), CountAction(plan.rows, Update),
                 CountAction(plan.rows, Skip), CountAction(plan.rows, Rejected), |plan.newTeams|)
  }

  /** The report says whether it was a dry run and how many rows were created, updated,
      skipped and rejected, and how many teams are new. */
  lemma {:induction false} ReportIsExact(req: ImportRequest, plan: Plan)
    ensures var r := ReportOf(req, plan);
            && r.dryRun == req.dryRun && r.plan == plan && r.newTeams == |plan.newTeams|
            && r.created == |RowsWith(plan.rows, Create)| && r.updated == |RowsWith(plan.rows, Update)|
            && r.skipped == |RowsWith(plan.rows, Skip)| && r.errors == |RowsWith(plan.rows, Rejected)|
  {
    CountIsSize(plan.rows, Create);
    CountIsSize(plan.rows, Update);
    CountIsSize(plan.rows, Skip);
    CountIsSize(plan.rows, Rejected);
  }

  class Store {
    var races: map<string, RaceFormat>
    var teams: map<string, Team>
    var people: map<string, Participant>

    function Now(): State
      reads this
    {
      State(races, teams, people)
    }

    /** A new event has no races, no teams and nobody in it. */
    constructor ()
      ensures Now() == State(map[], map[], map[])
    {
      races, teams, people := map[], map[], map[];
    }

    // ---- writes

    method WritePerson(id: string, p: Participant) returns (failure: Option<Failure>)
      modifies this
      ensures Settles(old(Now()), Now(), failure, PutPerson(old(Now()), id, p))
    {
      if !Storable(p) {
        return Some(OutOfRange);
      }
      if !BibFree(Now(), id, p.bib) {
        return Some(BibTaken);
      }
      if !RefFree(Now(), id, p.refID) {
        return Some(RefTaken);
      }
      if !LegFree(Now(), id, p.teamID, p.legOrder) {
        return Some(LegTaken);
      }
      people := people[id := p];
      failure := None;
    }

    method WriteTeam(id: string, t: Team) returns (failure: Option<Failure>)
      modifies this
      ensures Settles(old(Now()), Now(), failure, PutTeam(old(Now()), id, t))
    {
      if !NameFree(Now(), id, t.raceID, t.name) {
        return Some(TeamNameTaken);
      }
      teams := teams[id := t];
      failure := None;
    }

    // ---- participants

    /** The team rules for putting somebody in a team, checked member by member. */
    method CheckTeamJoin(raceID: string, input: Input, exclude: Option<string>) returns (failure: Option<Failure>)
      requires raceID in races
      ensures failure == JoinFailure(Now(), raceID, input, exclude)
    {
      if input.teamID.None? {
        return None;
      }
      var t, size := input.teamID.value, races[raceID].Size();
      if t !in teams || teams[t].raceID != raceID {
        return Some(Invalid(TeamIDField));
      }
      ghost var others := OtherMembers(Now(), t, exclude);
      var members := MembersOf(people, t);
      var ids := ListIds(members.Keys);
      var genders, count := [input.gender], 1;
      ghost var kept: seq<string> := [];
      for k := 0 to |ids|
        invariant Screened(others, ids, k, exclude, input, kept, genders, count)
      {
        assert ids[k] in ids;
        var m := members[ids[k]];
        ScreenNext(others, ids, k, exclude, input, kept, genders, count);
        if Some(ids[k]) != exclude {
          count := count + 1;
          genders := genders + [m.gender];
          if input.legOrder.Some? && m.legOrder == input.legOrder {
            return Some(LegTaken);
          }
          kept := kept + [ids[k]];
        }
      }
      assert ids[..|ids|] == ids;
      AllKept(others, members, ids, exclude, kept);
      JoiningGendersFit(teams[t].category, size, others, kept, input.gender);
      if size > 0 && count > size {
        return Some(TeamFull);
      }
      var c := CheckTeamComposition(teams[t].category, size, genders);
      failure := if c == Clash then Some(Invalid(GenderField)) else None;
    }

    method CheckInput(raceID: string, input: Input, bad: string, lenient: bool, exclude: Option<string>) returns (failure: Option<Failure>)
      ensures failure == InputFailure(Now(), raceID, input, bad, lenient, exclude)
    {
      if bad != "" {
        return Some(Invalid(BloodTypeField));
      }
      if raceID !in races {
        return Some(Invalid(RaceField));
      }
      var race := races[raceID];
      var broken := Validate(input, race);
      if broken.Some? && !(lenient && race.IsTeam() && input.teamID.None? && broken.value == TeamIDField) {
        return Some(Invalid(broken.value));
      }
      failure := CheckTeamJoin(raceID, input, exclude);
    }

    method CreateParticipant(id: string, raceID: string, supplied: Input) returns (failure: Option<Failure>)
      modifies this
      ensures Settles(old(Now()), Now(), failure, CreatePerson(old(Now()), id, raceID, supplied))
    {
      var (input, bad) := Normalize(supplied);
      failure := CheckInput(raceID, input, bad, false, None);
      if failure.None? {
        failure := WritePerson(id, PersonOf(raceID, input));
      }
    }

    method UpdateParticipant(id: string, patch: Patch) returns (failure: Option<Failure>)
      modifies this
      ensures Settles(old(Now()), Now(), failure, UpdatePerson(old(Now()), id, patch))
    {
      if id !in people {
        return Some(NotFound);
      }
      var p := people[id];
      var raceID := p.raceID;
      var merged := InputOf(p);
      if patch.raceID.Some? && patch.raceID.value != p.raceID {
        raceID := patch.raceID.value;
        merged := merged.(teamID := None, legOrder := None);
      }
      var d := merged.details;
      d := d.(firstName := Or(patch.firstName, d.firstName), lastName := Keep(d.lastName, patch.lastName),
              bibName := Keep(d.bibName, patch.bibName), email := Keep(d.email, patch.email), club := Keep(d.club, patch.club));
      d := d.(emergencyName := Keep(d.emergencyName, patch.emergencyName), emergencyPhone := Keep(d.emergencyPhone, patch.emergencyPhone),
              bloodType := Keep(d.bloodType, patch.bloodType), status := Or(patch.status, d.status));
      merged := merged.(details := d, bib := Or(patch.bib, merged.bib), gender := Or(patch.gender, merged.gender),
                        refID := Keep(merged.refID, patch.refID));
      if patch.teamID.Some? {
        merged := merged.(teamID := patch.teamID);
      }
      if patch.legOrder.Some? {
        merged := merged.(legOrder := if patch.legOrder.value == 0 then None else patch.legOrder);
      }
      assert merged == Patched(p, patch) && raceID == RaceAfter(p, patch);
      var (input, bad) := Normalize(merged);
      failure := CheckInput(raceID, input, bad, p.teamID.None?, Some(id));
      if failure.None? {
        failure := WritePerson(id, PersonOf(raceID, input));
      }
    }

    method DeleteParticipants(selected: set<string>) returns (n: nat)
      modifies this
      ensures Now() == DeletePeople(old(Now()), selected)
      ensures n == |old(people)| - |people|
    {
      var keys := people.Keys;
      assert |keys| == |keys - selected| + |keys * selected| by {
        assert keys == (keys - selected) + keys * selected;
      }
      people := people - selected;
      assert people.Keys == keys - selected;
      n := |keys * selected|;
    }

    method SetParticipantsStatus(selected: set<string>, status: Status) returns (failure: Option<Failure>)
      modifies this
      ensures Settles(old(Now()), Now(), failure, SetStatus(old(Now()), selected, status))
    {
      if status != Registered && status != DidNotStart {
        return Some(Invalid(StatusField));
      }
      people := map q | q in people ::
        if q in selected then people[q].(details := people[q].details.(status := status)) else people[q];
      failure := None;
    }

    // ---- teams

    method AddTeam(id: string, raceID: string, name: string, category: Category) returns (failure: Option<Failure>)
      modifies this
      ensures Settles(old(Now()), Now(), failure, CreateTeam(old(Now()), id, raceID, name, category))
    {
      if raceID !in races {
        return Some(Invalid(RaceField));
      }
      var broken := ValidateTeam(name, category, races[raceID]);
      if broken.Some? {
        return Some(Invalid(broken.value));
      }
      failure := WriteTeam(id, Team(raceID, Trim(name), category));
    }

    method ChangeTeam(id: string, name: Option<string>, category: Option<Category>) returns (failure: Option<Failure>)
      modifies this
      ensures Settles(old(Now()), Now(), failure, UpdateTeam(old(Now()), id, name, category))
    {
      if id !in teams {
        return Some(NotFound);
      }
      var team := teams[id];
      if name.Some? {
        team := team.(name := name.value);
      }
      if category.Some? {
        team := team.(category := category.value);
      }
      if team.raceID !in races {
        return Some(Invalid(RaceField));
      }
      var race := races[team.raceID];
      var broken := ValidateTeam(team.name, team.category, race);
      if broken.Some? {
        return Some(Invalid(broken.value));
      }
      if category.Some? {
        var members := MembersOf(people, id);
        var ids := ListIds(members.Keys);
        ComposedGendersFit(team.category, race.Size(), members, ids);
        var genders: seq<Gender> := [];
        for k := 0 to |ids|
          invariant genders == GendersOf(members, ids[..k])
        {
          assert ids[..k + 1] == ids[..k] + [ids[k]];
          genders := genders + [members[ids[k]].gender];
        }
        assert ids[..|ids|] == ids;
        var c := CheckTeamComposition(team.category, race.Size(), genders);
        if c == Clash {
          return Some(Invalid(GenderField));
        }
      }
      failure := WriteTeam(id, team.(name := Trim(team.name)));
    }

    method RemoveTeam(id: string, withMembers: bool) returns (failure: Option<Failure>)
      modifies this
      ensures Settles(old(Now()), Now(), failure, DeleteTeam(old(Now()), id, withMembers))
    {
      if id !in teams {
        return Some(NotFound);
      }
      if !withMembers {
        people := Detach(people, id);
      }
      var left := DropTeam(Now(), id);
      teams, people := left.teams, left.people;
      failure := None;
    }

    // ---- races

    /** A race row, with its numbers converted to the columns' types. */
    method WriteRace(id: string, format: RaceFormat) returns (failure: Option<Failure>)
      modifies this
      ensures Settles(old(Now()), Now(), failure, PutRace(old(Now()), id, format))
    {
      var kept := KeptFormat(format);
      if kept.None? {
        return Some(OutOfRange);
      }
      races := races[id := kept.value];
      failure := None;
    }

    method AddRace(id: string, format: RaceFormat) returns (failure: Option<Failure>)
      modifies this
      ensures Settles(old(Now()), Now(), failure, CreateRace(old(Now()), id, format))
    {
      var f := NormalizeFormat(format);
      if !FormatValid(f) {
        return Some(Invalid(FormatField));
      }
      failure := WriteRace(id, f);
    }

    method ChangeRace(id: string, patch: FormatPatch) returns (failure: Option<Failure>)
      modifies this
      ensures Settles(old(Now()), Now(), failure, UpdateRace(old(Now()), id, patch))
    {
      if id !in races {
        return Some(NotFound);
      }
      var f := NormalizeFormat(ApplyFormat(races[id], patch));
      if !FormatValid(f) {
        return Some(Invalid(FormatField));
      }
      if f != races[id] && HasParticipants(Now(), id) {
        return Some(FormatLocked);
      }
      failure := WriteRace(id, f);
    }

    method RemoveRace(id: string) returns (failure: Option<Failure>)
      modifies this
      ensures Settles(old(Now()), Now(), failure, DeleteRace(old(Now()), id))
    {
      if id !in races {
        return Some(NotFound);
      }
      var left := DeleteRace(Now(), id).value;
      races, teams, people := left.races, left.teams, left.people;
      failure := None;
    }

    // ---- imports

    /** The participants any incoming row could match; a BIB that does not fit its
        column ends the query. */
    method FindForImport(bibs: set<int>, refs: set<string>) returns (failure: Option<Failure>, existing: seq<Existing>)
      ensures failure == if forall b :: b in bibs ==> FitsInt4(b) then None else Some(OutOfRange)
      ensures failure.None? ==> ListsPeople(existing, Loaded(people, bibs, refs))
    {
      if exists b :: b in bibs && !FitsInt4(b) {
        return Some(OutOfRange), [];
      }
      failure := None;
      var found := Loaded(people, bibs, refs);
      var ids := ListIds(found.Keys);
      existing := [];
      for k := 0 to |ids|
        invariant forall e :: e in existing ==> e.id in found && e == ViewOf(e.id, found[e.id])
        invariant forall q :: q in ids[..k] ==> q in found && ViewOf(q, found[q]) in existing
      {
        assert ids[..k + 1] == ids[..k] + [ids[k]];
        assert ids[k] in ids;
        existing := existing + [ViewOf(ids[k], found[ids[k]])];
      }
      assert ids[..|ids|] == ids;
    }

    /** Every team with its members, gathered from one listing of the people. */
    method ListAllTeams() returns (all: seq<ExistingTeam>)
      ensures ListsTeams(all, Now())
    {
      var byTeam := MembersByTeam();
      var ids := ListIds(teams.Keys);
      all := [];
      for k := 0 to |ids|
        invariant forall e :: e in all ==> TeamIsListed(e, Now())
        invariant |all| == k && forall j :: 0 <= j < k ==> all[j].id == ids[j]
      {
        assert ids[k] in ids;
        var t := teams[ids[k]];
        all := all + [ExistingTeam(ids[k], t.raceID, t.name, t.category, TeamMembers(byTeam, ids[k]))];
      }
      forall id | id in teams
        ensures exists e :: e in all && e.id == id
      {
        var j :| 0 <= j < |ids| && ids[j] == id;
        assert all[j] in all;
      }
    }

    method MembersByTeam() returns (byTeam: map<string, seq<Existing>>)
      ensures forall t :: ListsMembers(TeamMembers(byTeam, t), MembersOf(people, t))
    {
      var ids := ListIds(people.Keys);
      byTeam := map[];
      for k := 0 to |ids|
        invariant Grouped(byTeam, people, ids[..k])
      {
        assert ids[..k + 1] == ids[..k] + [ids[k]];
        assert ids[k] in ids;
        var p := people[ids[k]];
        GroupNext(byTeam, people, ids[..k], ids[k]);
        if p.teamID.Some? {
          byTeam := byTeam[p.teamID.value := TeamMembers(byTeam, p.teamID.value) + [MemberView(ids[k], p)]];
        }
      }
      assert ids[..|ids|] == ids;
      GroupedIsListed(byTeam, people, ids);
    }

    /** Writes the teams and the accepted rows of a plan one by one; the first
        failed write ends it, and the transaction around it rolls back. */
    method ExecutePlan(rows: seq<ImportRow>, plan: Plan, teamIDs: seq<string>, freshIDs: seq<string>) returns (failure: Option<Failure>)
      requires |plan.newTeams| == |teamIDs| && |rows| == |plan.rows| == |freshIDs|
      modifies this
      ensures match ApplyPlan(old(Now()), rows, plan, teamIDs, freshIDs)
              case Ok(s) => failure.None? && Now() == s
              case Err(e) => failure == Some(e)
    {
      var newIDs: map<string, string> := map[];
      for k := 0 to |teamIDs|
        invariant AddTeams(old(Now()), plan.newTeams, teamIDs, k) == Ok(Now())
        invariant newIDs == NewIDs(plan.newTeams, teamIDs, k)
      {
        var pt := plan.newTeams[k];
        failure := WriteTeam(teamIDs[k], Team(pt.raceID, pt.name, pt.category));
        if failure.Some? {
          FailureEndsTeams(old(Now()), plan.newTeams, teamIDs, k + 1, |teamIDs|);
          return;
        }
        newIDs := newIDs[pt.key := teamIDs[k]];
      }
      ghost var s1 := Now();
      for i := 0 to |rows|
        invariant ApplyRows(s1, rows, plan.rows, newIDs, freshIDs, i) == Ok(Now())
      {
        failure := ExecuteRow(rows[i], plan.rows[i], newIDs, freshIDs[i]);
        if failure.Some? {
          FailureEndsRows(s1, rows, plan.rows, newIDs, freshIDs, i + 1, |rows|);
          return;
        }
      }
      failure := None;
    }

    method ExecuteRow(row: ImportRow, rp: RowPlan, newIDs: map<string, string>, freshID: string) returns (failure: Option<Failure>)
      modifies this
      ensures Settles(old(Now()), Now(), failure, ApplyRow(old(Now()), row, rp, newIDs, freshID))
    {
      if !Applies(rp) {
        return None;
      }
      var input := row.input.(teamID := None);
      if rp.team.Some? {
        var id := match rp.team.value
          case ToExisting(id) => id
          case ToNew(key) => if key in newIDs then newIDs[key] else "";
        input := input.(teamID := Some(id));
      }
      if row.raceID !in races || !races[row.raceID].IsRelay() {
        input := input.(legOrder := None);
      }
      if rp.action == Create {
        failure := WritePerson(freshID, PersonOf(row.raceID, input.(details := input.details.(status := Registered))));
        return;
      }
      if rp.existingID.None? || rp.existingID.value !in people {
        return Some(NotFound);
      }
      var p := people[rp.existingID.value];
      p := p.(raceID := row.raceID, teamID := input.teamID, legOrder := input.legOrder);
      p := p.(bib := input.bib, gender := input.gender, refID := Keep(p.refID, input.refID));
      p := p.(details := Overlay(p.details, input.details));
      failure := WritePerson(rp.existingID.value, p);
    }

    /** Loads what the rows could match and plans them; nothing is written. */
    method PlanFile(req: ImportRequest) returns (failure: Option<Failure>, batch: PlanInput, plan: Plan)
      ensures failure == if BibsFit(PrepareRows(req)) then None else Some(OutOfRange)
      ensures failure.None? ==>
                && batch == BatchOf(Now(), req, batch.existing, batch.teams) && plan == PlanOf(batch)
                && ListsPeople(batch.existing, Loaded(people, BibsOf(batch.rows), RefsOf(batch.rows)))
                && ListsTeams(batch.teams, Now())
    {
      batch, plan := PlanInput([], false, races, [], []), Plan([], []);
      var rows, bibs, refs := ReadRows(req);
      var existing;
      BibsFitMeans(rows);
      failure, existing := FindForImport(bibs, refs);
      if failure.Some? {
        return;
      }
      var listed := ListAllTeams();
      batch := PlanInput(rows, req.updateExisting, races, existing, listed);
      plan := PlanImport(batch);
    }

    /** Executes a plan, all of it or nothing. */
    method ExecuteOrRollBack(rows: seq<ImportRow>, plan: Plan, teamIDs: seq<string>, freshIDs: seq<string>) returns (failure: Option<Failure>)
      requires |plan.newTeams| == |teamIDs| && |rows| == |plan.rows| == |freshIDs|
      modifies this
      ensures Settles(old(Now()), Now(), failure, ApplyPlan(old(Now()), rows, plan, teamIDs, freshIDs))
    {
      var before := Now();
      failure := ExecutePlan(rows, plan, teamIDs, freshIDs);
      if failure.Some? {
        races, teams, people := before.races, before.teams, before.people;
      }
    }

    /** One import request from end to end. A dry run stops at the plan; otherwise every
        accepted row is written, or nothing is. */
    method ImportFile(req: ImportRequest, teamPool: seq<string>, freshIDs: seq<string>)
      returns (result: Result<ImportResult, Failure>, ghost supply: Supply)
      requires forall r :: r in races ==> Barless(r)
      requires |teamPool| == |freshIDs| == |req.rows|
      requires IdsAreNew(teamPool, teams.Keys) && IdsAreNew(freshIDs, people.Keys)
      modifies this
      ensures RequestFailure(req).Some? ==> result == Err(RequestFailure(req).value) && Now() == old(Now())
      ensures RequestFailure(req).None? ==>
                && Supplies(old(Now()), req, supply)
                && Settles(old(Now()), Now(), FailureOf(result), Import(old(Now()), req, supply))
                && (result.Ok? ==> result.value == ReportOf(req, PlanOf(BatchOf(old(Now()), req, supply.existing, supply.teams))))
    {
      supply := Supply([], [], [], []);
      if |req.rows| == 0 {
        return Err(EmptyImport), supply;
      }
      if |req.rows| > MAX_IMPORT_ROWS {
        return Err(TooManyRows), supply;
      }
      var failure, batch, plan := PlanFile(req);
      if failure.Some? {
        return Err(failure.value), supply;
      }
      FewPlanned(batch);
      var teamIDs := teamPool[..|plan.newTeams|];
      SupplyFits(Now(), req, batch, teamPool, freshIDs);
      supply := Supply(batch.existing, batch.teams, teamIDs, freshIDs);
      var created, updated, skipped, errors := Counts(plan);
      if !req.dryRun {
        failure := ExecuteOrRollBack(batch.rows, plan, teamIDs, freshIDs);
        if failure.Some? {
          return Err(failure.value), supply;
        }
      }
      result := Ok(ImportResult(req.dryRun, plan, created, updated, skipped, errors, |plan.newTeams|));
    }

    /** Fills in the default race, cleans the rows up, and collects the keys to
        look participants up by. */
    method ReadRows(req: ImportRequest) returns (rows: seq<ImportRow>, bibs: set<int>, refs: set<string>)
      ensures rows == PrepareRows(req) && bibs == BibsOf(rows) && refs == RefsOf(rows)
    {
      rows, bibs, refs := [], {}, {};
      for i := 0 to |req.rows|
        invariant rows == PrepareRows(req)[..i]
        invariant bibs == BibsOf(rows) && refs == RefsOf(rows)
      {
        var row := PrepareRow(req.rows[i], req.defaultRaceID);
        ghost var before := rows;
        PreparedNext(req, i);
        rows := rows + [row];
        RowAddsKeys(before, row);
        if row.input.bib > 0 {
          bibs := bibs + {row.input.bib};
        }
        if row.input.refID.Some? {
          refs := refs + {row.input.refID.value};
        }
      }
    }
  }

  lemma {:induction false} PreparedNext(req: ImportRequest, i: nat)
    requires i < |req.rows|
    ensures PrepareRows(req)[..i + 1] == PrepareRows(req)[..i] + [PrepareRow(req.rows[i], req.defaultRaceID)]
  {
    assert PrepareRows(req)[i] == PrepareRow(req.rows[i], req.defaultRaceID);
  }

  lemma {:induction false} RowAddsKeys(rows: seq<ImportRow>, row: ImportRow)
    ensures BibsOf(rows + [row]) == BibsOf(rows) + if row.input.bib > 0 then {row.input.bib} else {}
    ensures RefsOf(rows + [row]) == RefsOf(rows) + if row.input.refID.Some? then {row.input.refID.value} else {}
  {
    var more := rows + [row];
    assert more[|rows|] == row;
    assert forall i :: 0 <= i < |rows| ==> more[i] == rows[i];
  }
}
