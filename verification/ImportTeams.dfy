/** Which imports keep the team rules: exactly those whose head counts fit, and
    among them all that leave no member behind whom a rejected row re-registers. */
module ImportTeams {
  import opened Wrappers
  import opened Registration
  import opened Text
  import opened TeamRules
  import opened ImportPlan
  import opened ImportGuarantees
  import opened EventState
  import opened ImportApply
  import opened ImportTracking
  import opened ImportSafety
  import opened ImportSeats
  import opened ImportCounts

  // ---- which team a written row lands in

  lemma {:induction false} NewIDsAreExact(planned: seq<PlannedTeam>, ids: seq<string>, n: nat)
    requires n <= |planned| == |ids|
    requires forall j, k :: 0 <= j < k < |planned| ==> planned[j].key != planned[k].key
    ensures forall k :: 0 <= k < n ==> planned[k].key in NewIDs(planned, ids, n) && NewIDs(planned, ids, n)[planned[k].key] == ids[k]
    ensures forall key :: key in NewIDs(planned, ids, n) ==> exists k :: 0 <= k < n && planned[k].key == key
  {
    if n > 0 {
      NewIDsAreExact(planned, ids, n - 1);
    }
  }

  /** A run whose planned teams are in. */
  ghost predicate Started(r: Run) {
    r.Ready() && Valid(r.s) && r.WithTeams().Ok?
  }

  lemma {:induction false} RunStarts(r: Run)
    requires r.Ready() && Valid(r.s)
    ensures Started(r) && r.RowScript().Claims()
  {
    RunTeamsGoIn(r);
    PlanClaims(r);
  }

  /** The j-th planned team has this key and is stored under this id. */
  predicate IsNewTeam(planned: seq<PlannedTeam>, ids: seq<string>, j: int, key: string, t: string) {
    0 <= j < |planned| == |ids| && ids[j] == t && planned[j].key == key
  }

  /** The group with this key forms team t, stored or planned. */
  ghost predicate KeyOfTeam(r: Run, key: string, t: string) {
    match TeamOf(DraftOf(r.batch), key)
    case Some(e) => e.id == t && e in r.batch.teams && TeamKey(e.raceID, e.name) == key
    case None => t !in r.s.teams && exists j :: IsNewTeam(PlanOf(r.batch).newTeams, r.teamIDs, j, key, t)
  }

  /** The team record the group's rows are written against. */
  ghost predicate RecordOfTeam(r: Run, s1: State, key: string, k: nat, t: string)
    requires k < |r.batch.rows|
  {
    && t in s1.teams
    && s1.teams[t].raceID == r.batch.rows[k].raceID
    && s1.teams[t].category == CategoryOf(DraftOf(r.batch), key)
  }

  /** Row k was written into team t as a seated row of the group with this key. */
  ghost predicate SeatedIn(r: Run, s1: State, key: string, k: nat, t: string) {
    var d := DraftOf(r.batch);
    && JoinsTeam(d, k, key) && Forms(d, key) && k in Seated(d, key)
    && SizeOf(d, key) == RaceSize(r.s.races, r.batch.rows[k].raceID)
    && KeyOfTeam(r, key, t)
    && RecordOfTeam(r, s1, key, k, t)
  }

  lemma {:induction false} SizeOfGroup(r: Run, key: string, k: nat)
    requires r.Ready() && JoinsTeam(DraftOf(r.batch), k, key)
    ensures SizeOf(DraftOf(r.batch), key) == RaceSize(r.s.races, r.batch.rows[k].raceID)
  {
    var d := DraftOf(r.batch);
    GroupIsExact(d, key, |d.entries|);
    GroupHasOneRace(d, key, Group(d, key)[0], k);
  }

  /** Where a planned team lands. */
  lemma {:induction false} PlannedTeamLands(s: State, planned: seq<PlannedTeam>, ids: seq<string>, s1: State, pt: PlannedTeam) returns (j: nat)
    requires |planned| == |ids| && IdsAreNew(ids, s.teams.Keys)
    requires forall i, k :: 0 <= i < k < |planned| ==> planned[i].key != planned[k].key
    requires HasTeams(s, planned, ids, |planned|, s1)
    requires pt in planned
    ensures j < |ids| && IsNewTeam(planned, ids, j, pt.key, ids[j])
    ensures var newIDs := NewIDs(planned, ids, |ids|); pt.key in newIDs && newIDs[pt.key] == ids[j]
    ensures ids[j] !in s.teams && ids[j] in s1.teams && s1.teams[ids[j]] == Team(pt.raceID, pt.name, pt.category)
  {
    NewIDsAreExact(planned, ids, |ids|);
    j :| 0 <= j < |planned| && planned[j] == pt;
  }

  /** An applied row written into a team was seated in the group of that team. */
  lemma {:induction false} WrittenRowIsSeated(r: Run, k: nat, t: string)
    requires Started(r) && r.RowScript().AppliesAt(k)
    requires TeamIDOf(PlanOf(r.batch).rows[k], r.RowScript().newIDs) == Some(t)
    ensures SeatedIn(r, r.WithTeams().value, KeyOf(DraftOf(r.batch).entries[k]), k, t)
  {
    var d := DraftOf(r.batch);
    var key := KeyOf(d.entries[k]);
    RowWithTeamIsSeated(r.batch, k);
    SizeOfGroup(r, key, k);
    RunTeamsGoIn(r);
    if TeamOf(d, key).Some? {
      StoredTeamLands(r, key, k, t);
    } else {
      CreatedTeamLands(r, key, k, t);
    }
  }

  /** A row whose plan has a team was seated in its group. */
  lemma {:induction false} RowWithTeamIsSeated(batch: PlanInput, k: nat)
    requires k < |batch.rows| && Applies(PlanOf(batch).rows[k]) && PlanOf(batch).rows[k].team.Some?
    ensures var d := DraftOf(batch);
            var key := KeyOf(d.entries[k]);
            JoinsTeam(d, k, key) && Forms(d, key) && k in Seated(d, key) && PlanOf(batch).rows[k].team == Some(RefOf(d, key))
  {
    var d := DraftOf(batch);
    DraftIsSound(batch);
    if Joins(d.races, d.entries[k]) {
      JoiningRow(d, k);
    } else {
      OtherRow(d, k);
    }
  }

  lemma {:induction false} StoredTeamLands(r: Run, key: string, k: nat, t: string)
    requires Started(r) && JoinsTeam(DraftOf(r.batch), k, key) && TeamOf(DraftOf(r.batch), key).Some?
    requires HasTeams(r.s, PlanOf(r.batch).newTeams, r.teamIDs, |r.teamIDs|, r.WithTeams().value)
    requires TeamOf(DraftOf(r.batch), key).value.id == t
    ensures KeyOfTeam(r, key, t) && RecordOfTeam(r, r.WithTeams().value, key, k, t)
  {
    var d := DraftOf(r.batch);
    var e, row := TeamOf(d, key).value, d.entries[k].row;
    LastByKeyIsListed(d.teams, key);
    TeamKeyIsInjective(e.raceID, e.name, row.raceID, row.teamName);
  }

  lemma {:induction false} CreatedTeamLands(r: Run, key: string, k: nat, t: string)
    requires Started(r) && CreatesTeam(DraftOf(r.batch), key) && JoinsTeam(DraftOf(r.batch), k, key)
    requires HasTeams(r.s, PlanOf(r.batch).newTeams, r.teamIDs, |r.teamIDs|, r.WithTeams().value)
    requires TeamIDOf(PlanOf(r.batch).rows[k], r.RowScript().newIDs) == Some(t) && PlanOf(r.batch).rows[k].team == Some(ToNew(key))
    ensures KeyOfTeam(r, key, t) && RecordOfTeam(r, r.WithTeams().value, key, k, t)
  {
    var d := DraftOf(r.batch);
    var pt := PlannedTeamOf(d, key);
    CreatedTeamIsPlanned(d, key);
    PlannedKeysDiffer(d);
    var j := PlannedTeamLands(r.s, PlanOf(r.batch).newTeams, r.teamIDs, r.WithTeams().value, pt);
    assert j < |r.teamIDs| && r.teamIDs[j] == t;
    GroupHasOneRace(d, key, Group(d, key)[0], k);
  }

  /** All rows seated in one team were seated in the same group. */
  lemma {:induction false} OneGroupPerTeam(r: Run, key1: string, key2: string, t: string)
    requires r.Ready() && KeyOfTeam(r, key1, t) && KeyOfTeam(r, key2, t)
    ensures key1 == key2
  {
    var planned := PlanOf(r.batch).newTeams;
    if TeamOf(DraftOf(r.batch), key1).None? && TeamOf(DraftOf(r.batch), key2).None? {
      var j1 :| IsNewTeam(planned, r.teamIDs, j1, key1, t);
      var j2 :| IsNewTeam(planned, r.teamIDs, j2, key2, t);
      assert j1 == j2;
    }
  }

  // ---- who the final members of a team are

  /** Members of team t that a row of its own group re-registers, but that no
      applied row writes: the row was rejected and left them where they were. */
  function LeftBehind(r: Run, sc: Script, key: string, t: string): set<string>
    requires sc.Shaped()
  {
    set q | q in MembersOf(r.s.people, t) && q in Reregistered(DraftOf(r.batch), Group(DraftOf(r.batch), key))
            && sc.LastWriter(|sc.rows|, q).None?
  }

  lemma {:induction false} WithoutIsExact(members: seq<Existing>, gone: set<string>)
    ensures forall m :: m in Without(members, gone) <==> m in members && m.id !in gone
  {
    if members != [] {
      WithoutIsExact(members[..|members| - 1], gone);
      assert members == members[..|members| - 1] + [members[|members| - 1]];
    }
  }

  lemma {:induction false} NotGoneStays(members: seq<Existing>, gone: set<string>, people: map<string, Participant>, q: string)
    requires ListsMembers(members, people) && q in people && q !in gone
    ensures exists j :: 0 <= j < |Without(members, gone)| && Without(members, gone)[j] == MemberView(q, people[q])
  {
    var k :| 0 <= k < |members| && members[k].id == q;
    WithoutIsExact(members, gone);
    assert members[k] in Without(members, gone);
  }

  /** A member nobody wrote is staying, or was left behind. */
  lemma {:induction false} UnwrittenStays(r: Run, sc: Script, key: string, t: string, q: string)
    requires r.Ready() && Linked(r.s) && sc.Shaped() && KeyOfTeam(r, key, t)
    requires q in r.s.people && r.s.people[q].teamID == Some(t)
    requires sc.LastWriter(|sc.rows|, q).None? && q !in LeftBehind(r, sc, key, t)
    ensures exists j :: Stays(sc, Staying(DraftOf(r.batch), key), q, r.s.people[q], j)
  {
    var d := DraftOf(r.batch);
    var gone := Reregistered(d, Group(d, key));
    KeyHasStoredTeam(r, key, t, q);
    var e := TeamOf(d, key).value;
    assert q !in gone by {
      assert q in MembersOf(r.s.people, t);
    }
    NotGoneStays(e.members, gone, MembersOf(r.s.people, t), q);
    var j :| 0 <= j < |Without(e.members, gone)| && Without(e.members, gone)[j] == MemberView(q, r.s.people[q]);
    assert Stays(sc, Staying(d, key), q, r.s.people[q], j);
  }

  /** The team of a stored member is listed with its members. */
  lemma {:induction false} KeyHasStoredTeam(r: Run, key: string, t: string, q: string)
    requires r.Ready() && Linked(r.s) && KeyOfTeam(r, key, t)
    requires q in r.s.people && r.s.people[q].teamID == Some(t)
    ensures TeamOf(DraftOf(r.batch), key).Some? && ListsMembers(TeamOf(DraftOf(r.batch), key).value.members, MembersOf(r.s.people, t))
  {
  }

  /** A member some row wrote sits where that row was seated. */
  lemma {:induction false} WrittenSits(r: Run, now: map<string, Participant>, key: string, t: string, q: string, k: nat)
    requires Started(r) && KeyOfTeam(r, key, t)
    requires r.RowScript().Tracks(|r.batch.rows|, now)
    requires q in now && now[q].teamID == Some(t) && r.RowScript().LastWriter(|r.batch.rows|, q) == Some(k)
    ensures SeatedIn(r, r.WithTeams().value, key, k, t)
    ensures SitsBy(r.RowScript(), Seated(DraftOf(r.batch), key), q, k)
  {
    WrittenRowIsSeated(r, k, t);
    OneGroupPerTeam(r, KeyOf(DraftOf(r.batch).entries[k]), key, t);
  }

  lemma {:induction false} MemberIsPlaced(r: Run, sc: Script, now: map<string, Participant>, key: string, t: string, q: string)
    requires Started(r) && sc == r.RowScript() && KeyOfTeam(r, key, t)
    requires sc.Tracks(|sc.rows|, now)
    requires q in MembersOf(now, t) && q !in LeftBehind(r, sc, key, t)
    ensures || (exists j :: Stays(sc, Staying(DraftOf(r.batch), key), q, now[q], j))
            || (exists k :: SitsBy(sc, Seated(DraftOf(r.batch), key), q, k))
  {
    match sc.LastWriter(|sc.rows|, q)
    case None =>
      RunTeamsGoIn(r);
      UnwrittenStays(r, sc, key, t, q);
    case Some(k) =>
      WrittenSits(r, now, key, t, q, k);
  }

  /** Every final member of a team that some row joined is placed. */
  lemma {:induction false} MembersArePlaced(r: Run, sc: Script, now: map<string, Participant>, key: string, t: string)
    requires Started(r) && sc == r.RowScript() && KeyOfTeam(r, key, t)
    requires sc.Tracks(|sc.rows|, now)
    ensures Placed(sc, Staying(DraftOf(r.batch), key), Seated(DraftOf(r.batch), key), LeftBehind(r, sc, key, t), MembersOf(now, t))
  {
    forall q | q in MembersOf(now, t) && q !in LeftBehind(r, sc, key, t)
      ensures || (exists j :: Stays(sc, Staying(DraftOf(r.batch), key), q, MembersOf(now, t)[q], j))
              || (exists k :: SitsBy(sc, Seated(DraftOf(r.batch), key), q, k))
    {
      MemberIsPlaced(r, sc, now, key, t, q);
    }
    SeatedAreRows(DraftOf(r.batch), key);
  }

  lemma {:induction false} SeatedAreRows(d: Draft, key: string)
    ensures forall k :: 0 <= k < |Seated(d, key)| ==> Seated(d, key)[k] < |d.entries|
  {
    forall k | 0 <= k < |Seated(d, key)|
      ensures Seated(d, key)[k] < |d.entries|
    {
      assert JoinsTeam(d, Seated(d, key)[k], key);
    }
  }

  /** The real size of a team after an import exceeds its limit by at most the
      members that rejected rows left behind. */
  lemma {:induction false} SizeAfterImport(r: Run, now: map<string, Participant>, key: string, k: nat, t: string)
    requires Started(r) && SeatedIn(r, r.WithTeams().value, key, k, t)
    requires r.RowScript().Tracks(|r.batch.rows|, now)
    ensures |MembersOf(now, t)| <= |Staying(DraftOf(r.batch), key)| + |Seated(DraftOf(r.batch), key)|
                                   + |LeftBehind(r, r.RowScript(), key, t)|
    ensures |MembersOf(now, t)| <= RaceSize(r.s.races, r.batch.rows[k].raceID) + |LeftBehind(r, r.RowScript(), key, t)|
  {
    var d, sc := DraftOf(r.batch), r.RowScript();
    MembersArePlaced(r, sc, now, key, t);
    MembersAtMostSeats(sc, Staying(d, key), Seated(d, key), LeftBehind(r, sc, key, t), MembersOf(now, t));
    GroupFitsSize(d, key);
  }

  // ---- the rules of one team after the import

  /** A seated row's gender agrees with a gender-bound team. */
  lemma {:induction false} SeatedGenderFits(d: Draft, key: string, k: nat)
    requires Forms(d, key) && k in Seated(d, key)
    ensures JoinsTeam(d, k, key)
    ensures CategoryOf(d, key) == MaleTeam ==> d.entries[k].row.input.gender == Male
    ensures CategoryOf(d, key) == FemaleTeam ==> d.entries[k].row.input.gender == Female
  {
    var j :| 0 <= j < |Seated(d, key)| && Seated(d, key)[j] == k;
    SeatIsInTeamGenders(d, Staying(d, key), Seated(d, key), j);
    ComposedGender(CategoryOf(d, key), SizeOf(d, key), TeamGenders(d, key), |Staying(d, key)| + j);
  }

  lemma SeatIsInTeamGenders(d: Draft, staying: seq<Existing>, seated: seq<nat>, j: nat)
    requires j < |seated| && forall k :: 0 <= k < |seated| ==> seated[k] < |d.entries|
    ensures (GendersOfMembers(staying) + GendersOfRows(d, seated))[|staying| + j] == d.entries[seated[j]].row.input.gender
  {
  }

  lemma {:induction false} ComposedGender(category: Category, size: int, genders: seq<Gender>, i: nat)
    requires i < |genders| && Compose(category, size, genders) != Clash
    ensures category == MaleTeam ==> genders[i] == Male
    ensures category == FemaleTeam ==> genders[i] == Female
  {
    assert genders[i] in genders;
  }

  /** A valid row's leg is as its race wants it. */
  lemma ValidLeg(input: Input, race: RaceFormat)
    requires Validate(input, race).None?
    ensures if race.IsRelay() then input.legOrder.Some? && 1 <= input.legOrder.value <= race.Size() else input.legOrder.None?
  {
  }

  /** What a seated row writes suits the team. */
  lemma {:induction false} SeatedRowSuits(r: Run, s1: State, sc: Script, key: string, k: nat, t: string, p: Participant)
    requires SeatedIn(r, s1, key, k, t)
    requires sc.Shaped() && sc.rows == r.batch.rows && sc.state.races == r.batch.races && sc.Carries(p, k)
    ensures r.batch.rows[k].raceID in r.batch.races && r.batch.races[r.batch.rows[k].raceID].IsTeam()
    ensures MemberSuits(s1.teams[t], r.batch.races[r.batch.rows[k].raceID], p)
  {
    var race := r.batch.races[r.batch.rows[k].raceID];
    SeatedGenderFits(DraftOf(r.batch), key, k);
    SeatedWasJudged(r.batch, key, k);
    JudgedRowIsValid(r.batch, k);
    ValidLeg(r.batch.rows[k].input.(teamID := Some(PENDING_TEAM)), race);
  }

  lemma {:induction false} SeatedWasJudged(batch: PlanInput, key: string, k: nat)
    requires JoinsTeam(DraftOf(batch), k, key)
    ensures Judge(batch, k).action != Rejected
    ensures batch.rows[k].raceID in batch.races && batch.races[batch.rows[k].raceID].IsTeam()
  {
    assert DraftOf(batch).entries[k] == Entry(batch.rows[k], Judge(batch, k));
  }

  /** The team's record and race, as the finished import sees them. */
  function TeamAfter(r: Run, t: string): Team
    requires Started(r) && t in r.WithTeams().value.teams
  {
    r.WithTeams().value.teams[t]
  }

  /** A final member is the stored one, or carries a seated row. */
  lemma {:induction false} MemberSource(r: Run, sc: Script, now: map<string, Participant>, key: string, t: string, q: string)
    requires Started(r) && sc == r.RowScript() && KeyOfTeam(r, key, t)
    requires sc.Tracks(|sc.rows|, now) && q in MembersOf(now, t)
    ensures match sc.LastWriter(|sc.rows|, q)
            case None => q in MembersOf(r.s.people, t) && now[q] == r.s.people[q] && t in r.s.teams
            case Some(k) => SeatedIn(r, sc.state, key, k, t) && sc.Carries(now[q], k)
  {
    RunTeamsGoIn(r);
    if sc.LastWriter(|sc.rows|, q).Some? {
      WrittenSits(r, now, key, t, q, sc.LastWriter(|sc.rows|, q).value);
    }
  }

  /** Stored teams keep their record. */
  lemma {:induction false} StoredTeamStays(r: Run, t: string)
    requires Started(r) && t in r.s.teams
    ensures t in r.WithTeams().value.teams && TeamAfter(r, t) == r.s.teams[t]
  {
    RunTeamsGoIn(r);
  }

  lemma {:induction false} MemberSuitsAfter(r: Run, sc: Script, now: map<string, Participant>, key: string, k: nat, t: string, q: string)
    requires Started(r) && sc == r.RowScript() && SeatedIn(r, sc.state, key, k, t)
    requires sc.Tracks(|sc.rows|, now) && q in MembersOf(now, t)
    requires r.batch.rows[k].raceID in r.s.races
    ensures MemberSuits(TeamAfter(r, t), r.s.races[r.batch.rows[k].raceID], now[q])
  {
    MemberSource(r, sc, now, key, t, q);
    match sc.LastWriter(|sc.rows|, q)
    case None =>
      StoredTeamStays(r, t);
      StoredTeamIsFine(r.s, t);
      assert MembersOf(r.s.people, t)[q] == now[q];
    case Some(w) =>
      RunTeamsGoIn(r);
      SeatedRowSuits(r, sc.state, sc, key, w, t, now[q]);
  }

  /** A mixed group that forms and is full shows each gender. */
  lemma {:induction false} MixedGroupShows(d: Draft, key: string, g: Gender)
    requires Forms(d, key) && CategoryOf(d, key) == MixedTeam && (g == Male || g == Female)
    requires |Staying(d, key)| + |Seated(d, key)| >= SizeOf(d, key) > 0
    ensures g in TeamGenders(d, key)
  {
    FullMixShows(SizeOf(d, key), TeamGenders(d, key), g);
  }

  lemma FullMixShows(size: int, genders: seq<Gender>, g: Gender)
    requires Compose(MixedTeam, size, genders) != Clash && 0 < size <= |genders| && (g == Male || g == Female)
    ensures g in genders
  {
  }

  /** The seat on which a gender is shown. */
  lemma {:induction false} SeatOfGender(d: Draft, staying: seq<Existing>, seated: seq<nat>, g: Gender) returns (i: nat)
    requires forall k :: 0 <= k < |seated| ==> seated[k] < |d.entries|
    requires g in GendersOfMembers(staying) + GendersOfRows(d, seated)
    ensures i < |staying| + |seated|
    ensures i < |staying| ==> staying[i].gender == g
    ensures i >= |staying| ==> d.entries[seated[i - |staying|]].row.input.gender == g
  {
    var genders := GendersOfMembers(staying) + GendersOfRows(d, seated);
    i :| 0 <= i < |genders| && genders[i] == g;
  }

  lemma {:induction false} SeatedGendersAreKept(r: Run, sc: Script, now: map<string, Participant>, key: string, t: string)
    requires Started(r) && sc == r.RowScript() && KeyOfTeam(r, key, t)
    requires sc.Tracks(|sc.rows|, now)
    ensures forall q, w :: q in MembersOf(now, t) && SitsBy(sc, Seated(DraftOf(r.batch), key), q, w) ==>
              now[q].gender == sc.rows[w].input.gender
  {
    forall q | q in MembersOf(now, t)
      ensures forall w :: SitsBy(sc, Seated(DraftOf(r.batch), key), q, w) ==> now[q].gender == sc.rows[w].input.gender
    {
      MemberSource(r, sc, now, key, t, q);
    }
  }

  /** A team with as many members as places filled every seat. */
  lemma {:induction false} FullMeansEverySeat(r: Run, sc: Script, now: map<string, Participant>, key: string, t: string)
    requires Started(r) && sc == r.RowScript() && KeyOfTeam(r, key, t)
    requires sc.Tracks(|sc.rows|, now) && LeftBehind(r, sc, key, t) == {}
    requires Seated(DraftOf(r.batch), key) != [] && |MembersOf(now, t)| >= SizeOf(DraftOf(r.batch), key)
    ensures Placed(sc, Staying(DraftOf(r.batch), key), Seated(DraftOf(r.batch), key), {}, MembersOf(now, t))
    ensures |MembersOf(now, t)| == |Staying(DraftOf(r.batch), key)| + |Seated(DraftOf(r.batch), key)| == SizeOf(DraftOf(r.batch), key)
  {
    MembersArePlaced(r, sc, now, key, t);
    MembersAtMostSeats(sc, Staying(DraftOf(r.batch), key), Seated(DraftOf(r.batch), key), {}, MembersOf(now, t));
    GroupFitsSize(DraftOf(r.batch), key);
  }

  /** The draft and the script speak of the same file. */
  ghost predicate SameFile(d: Draft, sc: Script) {
    && sc.Shaped()
    && |d.entries| == |sc.rows|
    && forall k :: 0 <= k < |sc.rows| ==> d.entries[k].row == sc.rows[k]
  }

  lemma RunIsOneFile(r: Run)
    requires Started(r)
    ensures SameFile(DraftOf(r.batch), r.RowScript())
  {
  }

  /** When the members fill every seat, a gender shown on the seats is there. */
  lemma {:induction false} FullSeatsShow(d: Draft, sc: Script, staying: seq<Existing>, seated: seq<nat>, members: map<string, Participant>, g: Gender)
    requires SameFile(d, sc)
    requires forall k :: 0 <= k < |seated| ==> seated[k] < |d.entries|
    requires g in GendersOfMembers(staying) + GendersOfRows(d, seated)
    requires Placed(sc, staying, seated, {}, members) && |members| == |staying| + |seated|
    requires forall q, w :: q in members && SitsBy(sc, seated, q, w) ==> members[q].gender == sc.rows[w].input.gender
    ensures HasGender(members, g)
  {
    var i := SeatOfGender(d, staying, seated, g);
    GenderIsSeated(sc, staying, seated, members, g, i);
  }

  /** A mixed team that ends full has both genders. */
  lemma {:induction false} MixedStaysMixed(r: Run, sc: Script, now: map<string, Participant>, key: string, k: nat, t: string, g: Gender)
    requires Started(r) && sc == r.RowScript() && SeatedIn(r, sc.state, key, k, t)
    requires sc.Tracks(|sc.rows|, now) && LeftBehind(r, sc, key, t) == {}
    requires CategoryOf(DraftOf(r.batch), key) == MixedTeam && (g == Male || g == Female)
    requires |MembersOf(now, t)| >= SizeOf(DraftOf(r.batch), key) > 0
    ensures HasGender(MembersOf(now, t), g)
  {
    RunIsOneFile(r);
    FullMeansEverySeat(r, sc, now, key, t);
    SeatedGendersAreKept(r, sc, now, key, t);
    MixedGroupShows(DraftOf(r.batch), key, g);
    SeatedAreRows(DraftOf(r.batch), key);
    FullSeatsShow(DraftOf(r.batch), sc, Staying(DraftOf(r.batch), key), Seated(DraftOf(r.batch), key), MembersOf(now, t), g);
  }

  /** A team some row joined, and where nobody was left behind, keeps to its
      size and, when it is mixed and full, has both genders. */
  lemma {:induction false} JoinedTeamFits(r: Run, sc: Script, now: map<string, Participant>, key: string, k: nat, t: string)
    requires Started(r) && sc == r.RowScript() && SeatedIn(r, sc.state, key, k, t)
    requires sc.Tracks(|sc.rows|, now) && LeftBehind(r, sc, key, t) == {}
    ensures r.batch.rows[k].raceID in r.s.races
    ensures var race := r.s.races[r.batch.rows[k].raceID];
            |MembersOf(now, t)| <= race.Size() && (race.Size() > 0 ==> MixesWhenFull(TeamAfter(r, t), race, MembersOf(now, t)))
  {
    SeatedWasJudged(r.batch, key, k);
    var race := r.s.races[r.batch.rows[k].raceID];
    SizeAfterImport(r, now, key, k, t);
    if TeamAfter(r, t).category == MixedTeam && |MembersOf(now, t)| >= race.Size() > 0 {
      MixedStaysMixed(r, sc, now, key, k, t, Male);
      MixedStaysMixed(r, sc, now, key, k, t, Female);
    }
  }

  // ---- the whole table after the import

  /** No forming group left a current member of its team behind. */
  ghost predicate NobodyLeft(r: Run)
    requires Started(r)
  {
    forall key, t :: Forms(DraftOf(r.batch), key) && KeyOfTeam(r, key, t) ==> LeftBehind(r, r.RowScript(), key, t) == {}
  }

  /** Some row was written into the team. */
  ghost predicate Joined(sc: Script, t: string)
    requires sc.Shaped()
  {
    exists k :: sc.AppliesAt(k) && TeamIDOf(sc.plans[k], sc.newIDs) == Some(t)
  }

  lemma {:induction false} UnjoinedMemberWasThere(r: Run, sc: Script, now: map<string, Participant>, t: string, q: string)
    requires Started(r) && sc == r.RowScript() && !Joined(sc, t)
    requires sc.Tracks(|sc.rows|, now) && q in MembersOf(now, t)
    ensures q in MembersOf(r.s.people, t) && now[q] == r.s.people[q]
  {
    RunTeamsGoIn(r);
    assert sc.LastWriter(|sc.rows|, q).None?;
  }

  /** A team no row joined only loses members. */
  lemma {:induction false} UnjoinedTeamIsFine(r: Run, sc: Script, now: map<string, Participant>, t: string)
    requires Started(r) && sc == r.RowScript() && !Joined(sc, t)
    requires sc.Tracks(|sc.rows|, now)
    requires t in sc.state.teams && TeamAfter(r, t).raceID in r.s.races
    ensures TeamFine(TeamAfter(r, t), r.s.races[TeamAfter(r, t).raceID], MembersOf(now, t))
  {
    var before, after := MembersOf(r.s.people, t), MembersOf(now, t);
    forall q | q in after
      ensures q in before && after[q] == before[q]
    {
      UnjoinedMemberWasThere(r, sc, now, t, q);
    }
    if before != map[] {
      StoredTeamIsFine(r.s, t);
      StoredTeamStays(r, t);
      LeavingKeepsTeam(r.s.teams[t], r.s.races[r.s.teams[t].raceID], before, after);
    }
  }

  lemma {:induction false} StoredTeamIsFine(s: State, t: string)
    requires Valid(s) && MembersOf(s.people, t) != map[]
    ensures t in s.teams && s.teams[t].raceID in s.races
    ensures TeamFine(s.teams[t], s.races[s.teams[t].raceID], MembersOf(s.people, t))
  {
    var q :| q in MembersOf(s.people, t);
  }

  /** The race of every team after the import is a known one. */
  lemma {:induction false} TeamsHaveRaces(r: Run)
    requires Started(r)
    ensures forall t :: t in r.WithTeams().value.teams ==> r.WithTeams().value.teams[t].raceID in r.s.races
  {
    var planned := PlanOf(r.batch).newTeams;
    RunTeamsGoIn(r);
    forall t | t in r.WithTeams().value.teams
      ensures r.WithTeams().value.teams[t].raceID in r.s.races
    {
      if t !in r.s.teams {
        var k :| 0 <= k < |r.teamIDs| && r.teamIDs[k] == t;
        PlannedRaceIsKnown(r.batch, planned[k]);
      }
    }
  }

  lemma {:induction false} PlannedRaceIsKnown(batch: PlanInput, pt: PlannedTeam)
    requires pt in PlanOf(batch).newTeams
    ensures pt.raceID in batch.races
  {
    var d := DraftOf(batch);
    KeysAreTheGroups(d, |d.entries|);
    TeamsForIsExact(d, Keys(d));
    assert JoinsTeam(d, Group(d, pt.key)[0], pt.key);
  }

  /** When nobody was left behind, every team's head counts fit. */
  lemma {:induction false} NobodyLeftFits(r: Run, sc: Script, now: map<string, Participant>, t: string)
    requires Started(r) && sc == r.RowScript() && NobodyLeft(r)
    requires sc.Tracks(|sc.rows|, now)
    requires t in sc.state.teams && TeamAfter(r, t).raceID in r.s.races && sc.state.races == r.s.races
    ensures HeadsFit(sc, t)
  {
    HeadsFitMeans(sc, now, t);
    if Joined(sc, t) {
      var k :| sc.AppliesAt(k) && TeamIDOf(sc.plans[k], sc.newIDs) == Some(t);
      var key := KeyOf(DraftOf(r.batch).entries[k]);
      WrittenRowIsSeated(r, k, t);
      JoinedTeamFits(r, sc, now, key, k, t);
    } else {
      UnjoinedTeamIsFine(r, sc, now, t);
    }
  }

  // ---- the rules that cannot break

  lemma {:induction false} UnwrittenIsStored(r: Run, sc: Script, now: map<string, Participant>, q: string)
    requires Started(r) && sc == r.RowScript() && sc.Tracks(|sc.rows|, now) && q in now && sc.LastWriter(|sc.rows|, q).None?
    ensures q in r.s.people && now[q] == r.s.people[q]
  {
    RunTeamsGoIn(r);
  }

  /** A member no row wrote still suits its stored team. */
  lemma {:induction false} StoredMemberSuits(r: Run, t: string, q: string)
    requires Started(r) && q in r.s.people && r.s.people[q].teamID == Some(t)
    ensures t in r.WithTeams().value.teams && TeamAfter(r, t).raceID in r.s.races
    ensures r.s.races[TeamAfter(r, t).raceID].IsTeam()
    ensures MemberSuits(TeamAfter(r, t), r.s.races[TeamAfter(r, t).raceID], r.s.people[q])
  {
    assert q in MembersOf(r.s.people, t);
    StoredTeamIsFine(r.s, t);
    StoredTeamStays(r, t);
  }

  /** A member some row wrote suits the team it was seated in. */
  lemma {:induction false} WrittenMemberSuits(r: Run, sc: Script, now: map<string, Participant>, t: string, q: string, k: nat)
    requires Started(r) && sc == r.RowScript() && sc.Tracks(|sc.rows|, now) && q in MembersOf(now, t)
    requires Arrives(sc, t, k)
    requires t in sc.state.teams && TeamAfter(r, t).raceID in r.s.races
    ensures r.s.races[TeamAfter(r, t).raceID].IsTeam()
    ensures MemberSuits(TeamAfter(r, t), r.s.races[TeamAfter(r, t).raceID], now[q])
  {
    var key := KeyOf(DraftOf(r.batch).entries[k]);
    WrittenRowIsSeated(r, k, t);
    SeatedWasJudged(r.batch, key, k);
    MemberSuitsAfter(r, sc, now, key, k, t, q);
  }

  /** Whoever was rejected, every member's record suits its team. */
  lemma {:induction false} MembersSuit(r: Run, sc: Script, now: map<string, Participant>, t: string, q: string)
    requires Started(r) && sc == r.RowScript() && sc.Tracks(|sc.rows|, now) && q in MembersOf(now, t)
    requires t in sc.state.teams && TeamAfter(r, t).raceID in r.s.races
    ensures r.s.races[TeamAfter(r, t).raceID].IsTeam()
    ensures MemberSuits(TeamAfter(r, t), r.s.races[TeamAfter(r, t).raceID], now[q])
  {
    if sc.LastWriter(|sc.rows|, q).None? {
      UnwrittenIsStored(r, sc, now, q);
      StoredMemberSuits(r, t, q);
    } else {
      WriterArrives(sc, now, t, q);
      WrittenMemberSuits(r, sc, now, t, q, sc.LastWriter(|sc.rows|, q).value);
    }
  }

  /** Whoever was rejected, no two members of a team hold one leg afterwards. */
  lemma {:induction false} LegsStayDistinct(r: Run)
    requires r.Ready() && Valid(r.s) && r.Outcome().Ok?
    ensures DistinctLegs(r.Outcome().value)
  {
    RunTeamsGoIn(r);
    ValidLegsDiffer(r.s);
    SamePeopleSameLegs(r.s, r.WithTeams().value);
    WritesKeepLegs(r.RowScript(), |r.batch.rows|);
  }

  lemma {:induction false} SamePeopleSameLegs(s: State, s': State)
    requires DistinctLegs(s) && s'.people == s.people
    ensures DistinctLegs(s')
  {
    forall q | q in s'.people
      ensures LegFree(s', q, s'.people[q].teamID, s'.people[q].legOrder)
    {
      assert LegFree(s, q, s.people[q].teamID, s.people[q].legOrder);
    }
  }

  lemma {:induction false} MembersHoldDistinctLegs(s: State, t: string)
    requires DistinctLegs(s)
    ensures LegsDiffer(MembersOf(s.people, t))
  {
    var members := MembersOf(s.people, t);
    forall q1, q2 | q1 in members && q2 in members && q1 != q2 && members[q1].legOrder.Some?
      ensures members[q1].legOrder != members[q2].legOrder
    {
      assert LegFree(s, q1, s.people[q1].teamID, s.people[q1].legOrder);
    }
  }

  /** A team keeps all its rules exactly when its head counts fit. */
  lemma {:induction false} TeamIsFineIff(r: Run, sc: Script, s': State, t: string)
    requires Started(r) && sc == r.RowScript() && sc.Tracks(|sc.rows|, s'.people) && DistinctLegs(s')
    requires t in sc.state.teams && TeamAfter(r, t).raceID in r.s.races && sc.state.races == r.s.races
    ensures TeamFine(TeamAfter(r, t), r.s.races[TeamAfter(r, t).raceID], MembersOf(s'.people, t)) <==> HeadsFit(sc, t)
  {
    var team, race, members := TeamAfter(r, t), r.s.races[TeamAfter(r, t).raceID], MembersOf(s'.people, t);
    HeadsFitMeans(sc, s'.people, t);
    MembersHoldDistinctLegs(s', t);
    AllMembersSuit(r, sc, s'.people, t);
    FineWhenCounted(team, race, members);
  }

  lemma {:induction false} AllMembersSuit(r: Run, sc: Script, now: map<string, Participant>, t: string)
    requires Started(r) && sc == r.RowScript() && sc.Tracks(|sc.rows|, now)
    requires t in sc.state.teams && TeamAfter(r, t).raceID in r.s.races
    ensures forall q :: q in MembersOf(now, t) ==>
              r.s.races[TeamAfter(r, t).raceID].IsTeam() && MemberSuits(TeamAfter(r, t), r.s.races[TeamAfter(r, t).raceID], now[q])
  {
    forall q | q in MembersOf(now, t)
      ensures r.s.races[TeamAfter(r, t).raceID].IsTeam() && MemberSuits(TeamAfter(r, t), r.s.races[TeamAfter(r, t).raceID], now[q])
    {
      MembersSuit(r, sc, now, t, q);
    }
  }

  /** Where everybody suits and no leg is taken twice, the head counts decide. */
  lemma {:induction false} FineWhenCounted(team: Team, race: RaceFormat, members: map<string, Participant>)
    requires LegsDiffer(members) && forall q :: q in members ==> race.IsTeam() && MemberSuits(team, race, members[q])
    ensures TeamFine(team, race, members) <==> (members != map[] ==> |members| <= race.Size() && MixesWhenFull(team, race, members))
  {
    if members != map[] {
      var q :| q in members;
      assert race.IsTeam();
    }
  }

  /** Every participant still refers to a known race and team. */
  lemma {:induction false} PeopleStayLinked(r: Run, sc: Script, now: map<string, Participant>, q: string)
    requires Started(r) && sc == r.RowScript()
    requires sc.Tracks(|sc.rows|, now) && q in now
    ensures now[q].raceID in r.s.races
    ensures now[q].teamID.Some? ==> now[q].teamID.value in sc.state.teams
  {
    RunTeamsGoIn(r);
    match sc.LastWriter(|sc.rows|, q)
    case None =>
    case Some(k) =>
      AppliedRowWasJudged(r.batch, k);
      JudgeIsSound(r.batch, k);
      JudgedRowIsValid(r.batch, k);
      if now[q].teamID.Some? {
        WrittenRowIsSeated(r, k, now[q].teamID.value);
      }
  }

  /** What the finished import is made of. */
  lemma {:induction false} FinishedRun(r: Run)
    requires r.Ready() && Valid(r.s) && r.Outcome().Ok?
    ensures Started(r)
    ensures var sc, s' := r.RowScript(), r.Outcome().value;
            && sc.Tracks(|sc.rows|, s'.people) && DistinctKeys(s') && DistinctLegs(s')
            && s'.teams == sc.state.teams && s'.races == sc.state.races == r.s.races
  {
    RunStarts(r);
    EveryWriteKeepsKeys(r, |r.batch.rows|);
    RunTeamsGoIn(r);
    WritesAreTracked(r.RowScript(), |r.batch.rows|);
    LegsStayDistinct(r);
  }

  lemma {:induction false} EverythingStaysLinked(r: Run)
    requires r.Ready() && Valid(r.s) && r.Outcome().Ok?
    ensures Linked(r.Outcome().value)
  {
    FinishedRun(r);
    TeamsHaveRaces(r);
    forall q | q in r.Outcome().value.people
      ensures r.Outcome().value.people[q].raceID in r.s.races
      ensures r.Outcome().value.people[q].teamID.Some? ==> r.Outcome().value.people[q].teamID.value in r.Outcome().value.teams
    {
      PeopleStayLinked(r, r.RowScript(), r.Outcome().value.people, q);
    }
  }

  lemma {:induction false} AllTeamsFineIff(r: Run, sc: Script, s': State)
    requires Started(r) && sc == r.RowScript() && sc.Tracks(|sc.rows|, s'.people) && DistinctLegs(s')
    requires s'.teams == sc.state.teams && s'.races == sc.state.races == r.s.races && Linked(s')
    ensures TeamsFine(s') <==> CountsFit(sc)
  {
    forall t | t in s'.teams
      ensures TeamFine(s'.teams[t], s'.races[s'.teams[t].raceID], MembersOf(s'.people, t)) <==> HeadsFit(sc, t)
    {
      TeamIsFineIff(r, sc, s', t);
    }
  }

  /** An import that runs to its end keeps every rule if and only if every
      team's head counts fit, which the plan and the stored table tell: of race,
      leg, category and key rules none can break. */
  lemma {:induction false} ImportIsValidIff(r: Run)
    requires r.Ready() && Valid(r.s) && r.Outcome().Ok?
    ensures Started(r)
    ensures Valid(r.Outcome().value) <==> CountsFit(r.RowScript())
  {
    FinishedRun(r);
    EverythingStaysLinked(r);
    AllTeamsFineIff(r, r.RowScript(), r.Outcome().value);
  }

  /** When nobody was left behind they fit. */
  lemma {:induction false} ImportKeepsTheRules(r: Run)
    requires r.Ready() && Valid(r.s) && r.Outcome().Ok?
    ensures Started(r)
    ensures NobodyLeft(r) ==> CountsFit(r.RowScript()) && Valid(r.Outcome().value)
  {
    FinishedRun(r);
    TeamsHaveRaces(r);
    ImportIsValidIff(r);
    if NobodyLeft(r) {
      forall t | t in r.RowScript().state.teams
        ensures HeadsFit(r.RowScript(), t)
      {
        NobodyLeftFits(r, r.RowScript(), r.Outcome().value.people, t);
      }
    }
  }

  // ---- arrivals are seated rows

  /** Who a row puts in a group's team for good: exactly the targets last written
      by a seated row of a group that forms. */
  lemma {:induction false} ArrivalsAreSeated(r: Run, sc: Script, key: string, t: string, q: string)
    requires Started(r) && sc == r.RowScript() && KeyOfTeam(r, key, t)
    ensures q in Arrivals(sc, t) <==>
            Forms(DraftOf(r.batch), key) && exists k :: SitsBy(sc, Seated(DraftOf(r.batch), key), q, k)
  {
    if q in Arrivals(sc, t) {
      var k :| 0 <= k < |sc.rows| && Arrives(sc, t, k) && sc.Target(k) == q;
      ArrivalSits(r, sc, key, t, k);
    }
    if Forms(DraftOf(r.batch), key) && exists k :: SitsBy(sc, Seated(DraftOf(r.batch), key), q, k) {
      var k :| SitsBy(sc, Seated(DraftOf(r.batch), key), q, k);
      SitterArrives(r, sc, key, t, q, k);
    }
  }

  lemma {:induction false} ArrivalSits(r: Run, sc: Script, key: string, t: string, k: nat)
    requires Started(r) && sc == r.RowScript() && KeyOfTeam(r, key, t)
    requires k < |sc.rows| && Arrives(sc, t, k)
    ensures Forms(DraftOf(r.batch), key) && SitsBy(sc, Seated(DraftOf(r.batch), key), sc.Target(k), k)
  {
    WrittenRowIsSeated(r, k, t);
    OneGroupPerTeam(r, KeyOf(DraftOf(r.batch).entries[k]), key, t);
  }

  lemma {:induction false} SitterArrives(r: Run, sc: Script, key: string, t: string, q: string, k: int)
    requires Started(r) && sc == r.RowScript() && KeyOfTeam(r, key, t)
    requires Forms(DraftOf(r.batch), key) && SitsBy(sc, Seated(DraftOf(r.batch), key), q, k)
    ensures q in Arrivals(sc, t)
  {
    SeatedRowArrives(r, sc, key, k, t);
    assert Arrives(sc, t, k) && sc.Target(k) == q;
  }

  /** A seated row of a group that forms is written into the group's team. */
  lemma {:induction false} SeatedRowArrives(r: Run, sc: Script, key: string, k: nat, t: string)
    requires Started(r) && sc == r.RowScript() && KeyOfTeam(r, key, t)
    requires Forms(DraftOf(r.batch), key) && k in Seated(DraftOf(r.batch), key)
    ensures k < |sc.plans| && TeamIDOf(sc.plans[k], sc.newIDs) == Some(t)
  {
    var d, planned := DraftOf(r.batch), PlanOf(r.batch).newTeams;
    DraftIsSound(r.batch);
    assert JoinsTeam(d, k, key);
    JoiningRow(d, k);
    assert sc.plans[k] == RowOf(d, k);
    if TeamOf(d, key).None? {
      PlannedKeysDiffer(d);
      NewTeamIsFound(planned, r.teamIDs, key, t);
    }
  }

  lemma {:induction false} NewTeamIsFound(planned: seq<PlannedTeam>, ids: seq<string>, key: string, t: string)
    requires |planned| == |ids| && forall i, k :: 0 <= i < k < |planned| ==> planned[i].key != planned[k].key
    requires exists j :: IsNewTeam(planned, ids, j, key, t)
    ensures var newIDs := NewIDs(planned, ids, |ids|); key in newIDs && newIDs[key] == t
  {
    NewIDsAreExact(planned, ids, |ids|);
    var j :| IsNewTeam(planned, ids, j, key, t);
  }
}
