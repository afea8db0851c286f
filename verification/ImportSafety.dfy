/** An import executed against the table it was planned on: no BIB, ref_id or
    team name can collide, whatever the file. */
module ImportSafety {
  import opened Wrappers
  import opened Registration
  import opened Text
  import opened ImportPlan
  import opened ImportGuarantees
  import opened TeamRules
  import opened Columns
  import opened EventState
  import opened ImportApply
  import opened ImportTracking

  function ViewOf(id: string, p: Participant): Existing {
    Existing(id, p.bib, p.refID, p.legOrder, p.gender)
  }

  /** The planner's view of a team member leaves the ref_id out. */
  function MemberView(id: string, p: Participant): Existing {
    ViewOf(id, p).(refID := None)
  }

  /** The listing holds each of these participants once, in any order. */
  ghost predicate ListsPeople(existing: seq<Existing>, people: map<string, Participant>) {
    && (forall e :: e in existing ==> e.id in people && e == ViewOf(e.id, people[e.id]))
    && (forall q :: q in people ==> ViewOf(q, people[q]) in existing)
  }

  ghost predicate ListsMembers(members: seq<Existing>, people: map<string, Participant>) {
    && (forall k :: 0 <= k < |members| ==> members[k].id in people && members[k] == MemberView(members[k].id, people[members[k].id]))
    && (forall j, k :: 0 <= j < k < |members| ==> members[j].id != members[k].id)
    && (forall q :: q in people ==> exists k :: 0 <= k < |members| && members[k].id == q)
  }

  /** The listing holds each team with its current members. */
  ghost predicate ListsTeams(teams: seq<ExistingTeam>, s: State) {
    && (forall t :: t in teams ==>
          && t.id in s.teams
          && s.teams[t.id] == Team(t.raceID, t.name, t.category)
          && ListsMembers(t.members, MembersOf(s.people, t.id)))
    && (forall id :: id in s.teams ==> exists t :: t in teams && t.id == id)
  }

  /** Every BIB the rows are looked up by fits its column. */
  predicate BibsFit(rows: seq<ImportRow>) {
    forall i :: 0 <= i < |rows| && rows[i].input.bib > 0 ==> FitsInt4(rows[i].input.bib)
  }

  /** One import: the state it starts from, the planner's input, fresh ids. */
  datatype Run = Run(s: State, batch: PlanInput, teamIDs: seq<string>, freshIDs: seq<string>) {
    /** The plan was made on this very state, after the rows' BIBs were looked up,
        and the ids are new. */
    ghost predicate Ready() {
      && batch.races == s.races
      && (forall r :: r in s.races ==> Barless(r) && FormatKept(s.races[r]))
      && BibsFit(batch.rows)
      && ListsPeople(batch.existing, s.people)
      && ListsTeams(batch.teams, s)
      && |teamIDs| == |PlanOf(batch).newTeams|
      && |freshIDs| == |batch.rows|
      && IdsAreNew(teamIDs, s.teams.Keys)
      && IdsAreNew(freshIDs, s.people.Keys)
    }

    function WithTeams(): Result<State, Failure>
      requires |teamIDs| == |PlanOf(batch).newTeams|
    {
      AddTeams(s, PlanOf(batch).newTeams, teamIDs, |teamIDs|)
    }

    /** The writes of the plan's rows, once its teams are in. */
    function RowScript(): Script
      requires |teamIDs| == |PlanOf(batch).newTeams| && WithTeams().Ok?
    {
      Script(WithTeams().value, batch.rows, PlanOf(batch).rows, NewIDs(PlanOf(batch).newTeams, teamIDs, |teamIDs|), freshIDs)
    }

    function Outcome(): Result<State, Failure>
      requires |teamIDs| == |PlanOf(batch).newTeams| && |freshIDs| == |batch.rows|
    {
      ApplyPlan(s, batch.rows, PlanOf(batch), teamIDs, freshIDs)
    }
  }

  // ---- what a match implies

  lemma {:induction false} LastByBibIsListed(existing: seq<Existing>, bib: int)
    ensures match LastByBib(existing, bib)
            case Some(e) => e in existing && e.bib == bib
            case None => forall e :: e in existing ==> e.bib != bib
  {
    if existing != [] {
      LastByBibIsListed(existing[..|existing| - 1], bib);
      assert existing == existing[..|existing| - 1] + [existing[|existing| - 1]];
    }
  }

  lemma {:induction false} LastByRefIsListed(existing: seq<Existing>, ref: string)
    ensures match LastByRef(existing, ref)
            case Some(e) => e in existing && e.refID == Some(ref)
            case None => forall e :: e in existing ==> e.refID != Some(ref)
  {
    if existing != [] {
      LastByRefIsListed(existing[..|existing| - 1], ref);
      assert existing == existing[..|existing| - 1] + [existing[|existing| - 1]];
    }
  }

  /** With distinct BIBs and ref_ids, a row that applies claims its BIB and its
      ref_id from nobody but the participant it matched. */
  lemma {:induction false} JudgedRowClaims(people: map<string, Participant>, batch: PlanInput, i: nat, q: string)
    requires ListsPeople(batch.existing, people)
    requires forall a, b :: a in people && b in people && people[a].bib == people[b].bib ==> a == b
    requires i < |batch.rows| && Applies(Judge(batch, i)) && q in people
    requires || people[q].bib == batch.rows[i].input.bib
             || (batch.rows[i].input.refID.Some? && people[q].refID == batch.rows[i].input.refID
                 && forall a :: a in people && people[a].refID == people[q].refID ==> a == q)
    ensures Judge(batch, i).action == Update && Judge(batch, i).existingID == Some(q)
  {
    var input := batch.rows[i].input;
    var e := ViewOf(q, people[q]);
    assert e in batch.existing;
    LastByBibIsListed(batch.existing, input.bib);
    if input.refID.Some? {
      LastByRefIsListed(batch.existing, input.refID.value);
    }
  }

  lemma {:induction false} CountsSeeRepeats(rows: seq<ImportRow>, j: nat, k: nat)
    requires j < k < |rows|
    ensures rows[j].input.bib == rows[k].input.bib ==> CountBib(rows, rows[k].input.bib) >= 2
    ensures rows[k].input.refID.Some? && rows[j].input.refID == rows[k].input.refID ==> CountRef(rows, rows[k].input.refID.value) >= 2
  {
    if k < |rows| - 1 {
      CountsSeeRepeats(rows[..|rows| - 1], j, k);
    } else {
      CountsSeeOne(rows[..|rows| - 1], j);
    }
  }

  lemma {:induction false} CountsSeeOne(rows: seq<ImportRow>, j: nat)
    requires j < |rows|
    ensures CountBib(rows, rows[j].input.bib) >= 1
    ensures rows[j].input.refID.Some? ==> CountRef(rows, rows[j].input.refID.value) >= 1
  {
    if j < |rows| - 1 {
      CountsSeeOne(rows[..|rows| - 1], j);
    }
  }

  /** Two rows that pass 1 accepts share neither BIB nor ref_id. */
  lemma {:induction false} AcceptedRowsDiffer(batch: PlanInput, j: nat, k: nat)
    requires j < |batch.rows| && k < |batch.rows| && j != k
    requires Judge(batch, j).action != Rejected && Judge(batch, k).action != Rejected
    ensures batch.rows[j].input.bib != batch.rows[k].input.bib
    ensures batch.rows[j].input.refID.Some? ==> batch.rows[j].input.refID != batch.rows[k].input.refID
  {
    JudgedRowIsValid(batch, j);
    JudgedRowIsValid(batch, k);
    if j < k {
      CountsSeeRepeats(batch.rows, j, k);
    } else {
      CountsSeeRepeats(batch.rows, k, j);
    }
  }

  /** A row that applies in the end was accepted by pass 1 with that action. */
  lemma {:induction false} AppliedRowWasJudged(batch: PlanInput, i: nat)
    requires i < |batch.rows| && Applies(PlanOf(batch).rows[i])
    ensures Judge(batch, i).action == PlanOf(batch).rows[i].action
    ensures Judge(batch, i).existingID == PlanOf(batch).rows[i].existingID
  {
    var d := DraftOf(batch);
    DraftIsSound(batch);
    if Joins(d.races, d.entries[i]) {
      JoiningRow(d, i);
    } else {
      OtherRow(d, i);
    }
  }

  // ---- the new teams go in

  /** No planned team has the race and name of a stored one or of another planned one. */
  ghost predicate NamesAreNew(teams: map<string, Team>, planned: seq<PlannedTeam>) {
    && (forall k, t :: 0 <= k < |planned| && t in teams ==>
          !(teams[t].raceID == planned[k].raceID && teams[t].name == planned[k].name))
    && (forall j, k :: 0 <= j < k < |planned| ==>
          !(planned[j].raceID == planned[k].raceID && planned[j].name == planned[k].name))
  }

  ghost predicate IdsAreNew(ids: seq<string>, taken: set<string>) {
    && (forall k :: 0 <= k < |ids| ==> ids[k] !in taken)
    && (forall j, k :: 0 <= j < k < |ids| ==> ids[j] != ids[k])
  }

  /** s with the first n planned teams added under their ids. */
  ghost predicate HasTeams(s0: State, planned: seq<PlannedTeam>, ids: seq<string>, n: nat, s: State)
    requires n <= |planned| == |ids|
  {
    && s.people == s0.people && s.races == s0.races
    && DistinctNames(s)
    && (forall t :: t in s.teams <==> t in s0.teams || t in ids[..n])
    && (forall t :: t in s0.teams ==> t in s.teams && s.teams[t] == s0.teams[t])
    && (forall k :: 0 <= k < n ==>
          ids[k] in s.teams && s.teams[ids[k]] == Team(planned[k].raceID, planned[k].name, planned[k].category))
  }

  lemma {:induction false} AddOneTeam(s0: State, planned: seq<PlannedTeam>, ids: seq<string>, n: nat, s: State)
    requires n < |planned| == |ids|
    requires NamesAreNew(s0.teams, planned) && IdsAreNew(ids, s0.teams.Keys)
    requires HasTeams(s0, planned, ids, n, s)
    ensures var team := Team(planned[n].raceID, planned[n].name, planned[n].category);
            PutTeam(s, ids[n], team).Ok? && HasTeams(s0, planned, ids, n + 1, PutTeam(s, ids[n], team).value)
  {
    var team := Team(planned[n].raceID, planned[n].name, planned[n].category);
    assert ids[..n + 1] == ids[..n] + [ids[n]];
    forall t | t in s.teams
      ensures !(s.teams[t].raceID == team.raceID && s.teams[t].name == team.name)
    {
      if t !in s0.teams {
        var k :| 0 <= k < n && ids[k] == t;
      }
    }
    var s' := s.(teams := s.teams[ids[n] := team]);
    forall t | t in s'.teams
      ensures NameFree(s', t, s'.teams[t].raceID, s'.teams[t].name)
    {
      assert t in s.teams ==> NameFree(s, t, s.teams[t].raceID, s.teams[t].name);
    }
  }

  /** Inserting the planned teams never fails. */
  lemma {:induction false} TeamsGoIn(s0: State, planned: seq<PlannedTeam>, ids: seq<string>, n: nat)
    requires n <= |planned| == |ids| && DistinctNames(s0)
    requires NamesAreNew(s0.teams, planned) && IdsAreNew(ids, s0.teams.Keys)
    ensures AddTeams(s0, planned, ids, n).Ok?
    ensures HasTeams(s0, planned, ids, n, AddTeams(s0, planned, ids, n).value)
  {
    if n > 0 {
      TeamsGoIn(s0, planned, ids, n - 1);
      NextTeamGoesIn(s0, planned, ids, n - 1, AddTeams(s0, planned, ids, n - 1).value);
    }
  }

  lemma {:induction false} NextTeamGoesIn(s0: State, planned: seq<PlannedTeam>, ids: seq<string>, n: nat, s: State)
    requires n < |planned| == |ids| && AddTeams(s0, planned, ids, n) == Ok(s)
    requires NamesAreNew(s0.teams, planned) && IdsAreNew(ids, s0.teams.Keys) && HasTeams(s0, planned, ids, n, s)
    ensures AddTeams(s0, planned, ids, n + 1).Ok?
    ensures HasTeams(s0, planned, ids, n + 1, AddTeams(s0, planned, ids, n + 1).value)
  {
    AddOneTeam(s0, planned, ids, n, s);
  }

  lemma {:induction false} PlannedNamesAreNew(r: Run)
    requires r.Ready()
    ensures NamesAreNew(r.s.teams, PlanOf(r.batch).newTeams)
  {
    var planned := PlanOf(r.batch).newTeams;
    PlannedKeysAreNew(r.batch);
    forall k, t | 0 <= k < |planned| && t in r.s.teams
      ensures !(r.s.teams[t].raceID == planned[k].raceID && r.s.teams[t].name == planned[k].name)
    {
      var e :| e in r.batch.teams && e.id == t;
      assert planned[k] in planned;
      assert planned[k].key != TeamKey(e.raceID, e.name);
    }
    forall j, k | 0 <= j < k < |planned|
      ensures !(planned[j].raceID == planned[k].raceID && planned[j].name == planned[k].name)
    {
      assert planned[j] in planned && planned[k] in planned;
      assert planned[j].key != planned[k].key;
    }
  }

  /** The planned teams of a run go in under its fresh ids. */
  lemma {:induction false} RunTeamsGoIn(r: Run)
    requires r.Ready() && DistinctNames(r.s)
    ensures r.WithTeams().Ok?
    ensures HasTeams(r.s, PlanOf(r.batch).newTeams, r.teamIDs, |r.teamIDs|, r.WithTeams().value)
  {
    PlannedNamesAreNew(r);
    TeamsGoIn(r.s, PlanOf(r.batch).newTeams, r.teamIDs, |r.teamIDs|);
  }

  // ---- the plan's rows claim only what is free

  /** A row that applies has a positive BIB, and a leg within its race's team size. */
  lemma {:induction false} AppliedRowFits(r: Run, k: nat)
    requires r.Ready() && k < |r.batch.rows| && Applies(PlanOf(r.batch).rows[k])
    ensures FitsInt4(r.batch.rows[k].input.bib) && FitsInt4IfAny(LegOf(r.s.races, r.batch.rows[k]))
  {
    AppliedRowWasJudged(r.batch, k);
    JudgedRowIsValid(r.batch, k);
    var race := r.s.races[r.batch.rows[k].raceID];
    assert FormatKept(race);
    ValidRowFits(race, if race.IsTeam() then r.batch.rows[k].input.(teamID := Some(PENDING_TEAM)) else r.batch.rows[k].input);
  }

  lemma {:induction false} ValidRowFits(race: RaceFormat, input: Input)
    requires FormatKept(race) && Validate(input, race).None?
    ensures input.bib > 0 && (race.IsRelay() ==> FitsInt4IfAny(input.legOrder))
  {
  }

  lemma {:induction false} AppliedRowClaims(r: Run, sc: Script, k: nat)
    requires r.Ready() && DistinctKeys(r.s) && r.WithTeams().Ok? && sc == r.RowScript() && sc.AppliesAt(k)
    ensures var rp := PlanOf(r.batch).rows[k];
            rp.action == Update ==> rp.existingID.Some? && rp.existingID.value in r.s.people
    ensures sc.ClaimFree(r.s.people, k)
  {
    AppliedRowWasJudged(r.batch, k);
    UpdatedIsStored(r.s.people, r.batch, k);
    forall q | q in r.s.people && q != sc.Target(k)
      ensures r.s.people[q].bib != r.batch.rows[k].input.bib
      ensures r.batch.rows[k].input.refID.Some? ==> r.s.people[q].refID != r.batch.rows[k].input.refID
    {
      if || r.s.people[q].bib == r.batch.rows[k].input.bib
         || (r.batch.rows[k].input.refID.Some? && r.s.people[q].refID == r.batch.rows[k].input.refID) {
        JudgedRowClaims(r.s.people, r.batch, k, q);
      }
    }
  }

  lemma {:induction false} PlanClaims(r: Run)
    requires r.Ready() && DistinctKeys(r.s)
    ensures r.WithTeams().Ok? && r.RowScript().Claims()
  {
    RunTeamsGoIn(r);
    var sc := r.RowScript();
    var plans := PlanOf(r.batch).rows;
    forall k | sc.AppliesAt(k)
      ensures plans[k].action == Update ==> plans[k].existingID.Some? && plans[k].existingID.value in r.s.people
      ensures sc.ClaimFree(r.s.people, k) && sc.RowFits(k)
    {
      AppliedRowFits(r, k);
      AppliedRowClaims(r, sc, k);
    }
    forall j, k | sc.AppliesAt(j) && sc.AppliesAt(k) && j != k
      ensures r.batch.rows[j].input.bib != r.batch.rows[k].input.bib
      ensures r.batch.rows[j].input.refID.Some? ==> r.batch.rows[j].input.refID != r.batch.rows[k].input.refID
    {
      AppliedRowsDiffer(r.batch, j, k);
    }
  }

  lemma {:induction false} AppliedRowsDiffer(batch: PlanInput, j: nat, k: nat)
    requires j < |batch.rows| && k < |batch.rows| && j != k && Applies(PlanOf(batch).rows[j]) && Applies(PlanOf(batch).rows[k])
    ensures batch.rows[j].input.bib != batch.rows[k].input.bib
    ensures batch.rows[j].input.refID.Some? ==> batch.rows[j].input.refID != batch.rows[k].input.refID
  {
    AppliedRowWasJudged(batch, j);
    AppliedRowWasJudged(batch, k);
    AcceptedRowsDiffer(batch, j, k);
  }

  lemma {:induction false} UpdatedIsStored(people: map<string, Participant>, batch: PlanInput, i: nat)
    requires ListsPeople(batch.existing, people) && i < |batch.rows|
    ensures Judge(batch, i).existingID.Some? ==> Judge(batch, i).existingID.value in people
    ensures Judge(batch, i).action == Update ==> Judge(batch, i).existingID.Some?
  {
    JudgeIsSound(batch, i);
    LastByBibIsListed(batch.existing, batch.rows[i].input.bib);
    if batch.rows[i].input.refID.Some? {
      LastByRefIsListed(batch.existing, batch.rows[i].input.refID.value);
    }
  }

  /** Every single write of an import keeps BIBs and ref_ids distinct, and the
      only constraint it can ever stop on is a leg already taken. */
  lemma {:induction false} EveryWriteKeepsKeys(r: Run, n: nat)
    requires r.Ready() && DistinctKeys(r.s) && n <= |r.batch.rows|
    ensures r.WithTeams().Ok?
    ensures match r.RowScript().After(n)
            case Err(e) => e == LegTaken
            case Ok(s) => DistinctKeys(s) && r.RowScript().Tracks(n, s.people)
  {
    PlanClaims(r);
    RunTeamsGoIn(r);
    PersonKeysStay(r.s, r.WithTeams().value);
    WritesAreTracked(r.RowScript(), n);
  }

  lemma {:induction false} PersonKeysStay(s: State, s': State)
    requires DistinctKeys(s) && s'.people == s.people && DistinctNames(s')
    ensures DistinctKeys(s')
  {
    forall q | q in s'.people
      ensures BibFree(s', q, s'.people[q].bib) && RefFree(s', q, s'.people[q].refID)
    {
      assert BibFree(s, q, s.people[q].bib) && RefFree(s, q, s.people[q].refID);
    }
  }
}
