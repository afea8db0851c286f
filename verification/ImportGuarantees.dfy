/** What every plan promises, whatever the file: consistent rows and counts,
    resolved teams, and groups that fit their team. */
module ImportGuarantees {
  import opened Wrappers
  import opened Registration
  import opened Text
  import opened TeamRules
  import opened ImportPlan
  import opened ImportPlanner

  /** Race ids are UUIDs, so a team key determines its race. */
  ghost predicate BarlessRaces(batch: PlanInput) {
    && (forall r :: r in batch.races ==> Barless(r))
    && (forall t :: t in batch.teams ==> Barless(t.raceID))
  }

  // ---- rows

  /** Every row ends decided, and is in error iff it carries an error issue. */
  lemma {:induction false} EveryRowIsDecided(batch: PlanInput, i: nat)
    requires i < |batch.rows|
    ensures var rp := PlanOf(batch).rows[i];
            rp.action != Undecided && (rp.action == Rejected <==> HasError(rp.issues))
  {
    var d := DraftOf(batch);
    DraftIsSound(batch);
    if Joins(d.races, d.entries[i]) {
      JoiningRow(d, i);
    } else {
      OtherRow(d, i);
    }
  }

  lemma {:induction false} CountsSum(rows: seq<RowPlan>)
    requires forall i :: 0 <= i < |rows| ==> rows[i].action != Undecided
    ensures CountAction(rows, Create) + CountAction(rows, Update) + CountAction(rows, Skip) + CountAction(rows, Rejected) == |rows|
  {
    if rows != [] {
      CountsSum(rows[..|rows| - 1]);
    }
  }

  /** The four counts of a plan add up to the rows of the file. */
  lemma {:induction false} PlanCountsSum(batch: PlanInput)
    ensures var rows := PlanOf(batch).rows;
            CountAction(rows, Create) + CountAction(rows, Update) + CountAction(rows, Skip) + CountAction(rows, Rejected)
            == |batch.rows|
  {
    forall i | 0 <= i < |batch.rows|
      ensures PlanOf(batch).rows[i].action != Undecided
    {
      EveryRowIsDecided(batch, i);
    }
    CountsSum(PlanOf(batch).rows);
  }

  /** A row pass 1 accepts passed the field rules of a known race, and names
      its team when the race wants one. */
  lemma {:induction false} JudgedRowIsValid(batch: PlanInput, i: nat)
    requires i < |batch.rows| && Judge(batch, i).action != Rejected
    ensures var row := batch.rows[i];
            && row.raceID in batch.races
            && (batch.races[row.raceID].IsTeam() ==> row.teamName != "")
            && Validate(if batch.races[row.raceID].IsTeam() then row.input.(teamID := Some(PENDING_TEAM)) else row.input,
                        batch.races[row.raceID]).None?
            && CountBib(batch.rows, row.input.bib) <= 1
            && (row.input.refID.Some? ==> CountRef(batch.rows, row.input.refID.value) <= 1)
  {
    var row := batch.rows[i];
    JudgeIsSound(batch, i);
    assert !HasError(Screen(batch, row)) by {
      HasErrorOfSum(Screen(batch, row), Error(BibField));
    }
    if row.raceID !in batch.races {
      AnyErrorCounts(RaceField);
      HasErrorOfSum(BloodIssues(row), Error(RaceField));
    } else {
      var race := batch.races[row.raceID];
      ScreenParts(BloodIssues(row), NameIssues(race, row), FieldIssues(race, row), BibIssues(batch, row), RefIssues(batch, row));
      ScreenFindsErrors(batch, race, row);
    }
  }

  lemma {:induction false} AnyErrorCounts(f: Field)
    ensures HasError(Error(f))
  {
    assert Error(f)[0].level == ErrorLevel;
  }

  /** What the four screening rules report is always an error. */
  lemma {:induction false} ScreenFindsErrors(batch: PlanInput, race: RaceFormat, row: ImportRow)
    ensures NameIssues(race, row) != [] ==> HasError(NameIssues(race, row))
    ensures FieldIssues(race, row) != [] ==> HasError(FieldIssues(race, row))
    ensures BibIssues(batch, row) != [] ==> HasError(BibIssues(batch, row))
    ensures RefIssues(batch, row) != [] ==> HasError(RefIssues(batch, row))
  {
    forall f {
      AnyErrorCounts(f);
    }
  }

  lemma {:induction false} ScreenParts(a: seq<Issue>, b: seq<Issue>, c: seq<Issue>, d: seq<Issue>, e: seq<Issue>)
    requires !HasError(a + b + c + d + e)
    ensures !HasError(b) && !HasError(c) && !HasError(d) && !HasError(e)
  {
    HasErrorOfSum(a + b + c + d, e);
    HasErrorOfSum(a + b + c, d);
    HasErrorOfSum(a + b, c);
    HasErrorOfSum(a, b);
  }

  // ---- teams

  lemma {:induction false} LastByKeyIsListed(teams: seq<ExistingTeam>, key: string)
    ensures match LastByKey(teams, key)
            case Some(t) => t in teams && TeamKey(t.raceID, t.name) == key
            case None => forall t :: t in teams ==> TeamKey(t.raceID, t.name) != key
  {
    if teams != [] {
      LastByKeyIsListed(teams[..|teams| - 1], key);
      assert teams == teams[..|teams| - 1] + [teams[|teams| - 1]];
    }
  }

  lemma {:induction false} TeamsForIsExact(d: Draft, keys: seq<string>)
    requires forall j, k :: 0 <= j < k < |keys| ==> keys[j] != keys[k]
    ensures forall t :: t in TeamsFor(d, keys) ==> t.key in keys && CreatesTeam(d, t.key) && t == PlannedTeamOf(d, t.key)
    ensures forall key :: key in keys && CreatesTeam(d, key) ==> PlannedTeamOf(d, key) in TeamsFor(d, keys)
    ensures forall j, k :: 0 <= j < k < |TeamsFor(d, keys)| ==> TeamsFor(d, keys)[j].key != TeamsFor(d, keys)[k].key
  {
    if keys != [] {
      var before := keys[..|keys| - 1];
      TeamsForIsExact(d, before);
      assert keys == before + [keys[|keys| - 1]];
      var teams := TeamsFor(d, before);
      forall k | 0 <= k < |teams|
        ensures teams[k].key != keys[|keys| - 1]
      {
        assert teams[k] in teams;
      }
    }
  }

  /** The rows of one group register into one race: the one its key names. */
  lemma {:induction false} GroupHasOneRace(d: Draft, key: string, i: nat, j: nat)
    requires forall r :: r in d.races ==> Barless(r)
    requires JoinsTeam(d, i, key) && JoinsTeam(d, j, key)
    ensures d.entries[i].row.raceID == d.entries[j].row.raceID
  {
    TeamKeyIsInjective(d.entries[i].row.raceID, d.entries[i].row.teamName, d.entries[j].row.raceID, d.entries[j].row.teamName);
  }

  /** Planned teams have distinct keys that no stored team has. */
  lemma {:induction false} PlannedKeysAreNew(batch: PlanInput)
    ensures var teams := PlanOf(batch).newTeams;
            && (forall j, k :: 0 <= j < k < |teams| ==> teams[j].key != teams[k].key)
            && (forall t, s :: t in teams && s in batch.teams ==> t.key != TeamKey(s.raceID, s.name))
            && (forall t :: t in teams ==> t.category.Valid())
            && (forall t :: t in teams ==> t.key == TeamKey(t.raceID, t.name))
  {
    var d := DraftOf(batch);
    KeysAreTheGroups(d, |d.entries|);
    TeamsForIsExact(d, Keys(d));
    forall t | t in TeamsFor(d, Keys(d))
      ensures forall s :: s in batch.teams ==> t.key != TeamKey(s.raceID, s.name)
      ensures t.category.Valid()
      ensures t.key == TeamKey(t.raceID, t.name)
    {
      LastByKeyIsListed(d.teams, t.key);
      var i := Group(d, t.key)[0];
      assert JoinsTeam(d, i, t.key);
      TrimKeepsKey(d.entries[i].row.raceID, d.entries[i].row.teamName);
    }
  }

  lemma {:induction false} CreatedTeamIsPlanned(d: Draft, key: string)
    requires CreatesTeam(d, key)
    ensures PlannedTeamOf(d, key) in PlanOfDraft(d).newTeams
  {
    KeysAreTheGroups(d, |d.entries|);
    TeamsForIsExact(d, Keys(d));
  }

  lemma {:induction false} PlannedKeysDiffer(d: Draft)
    ensures var teams := PlanOfDraft(d).newTeams;
            forall j, k :: 0 <= j < k < |teams| ==> teams[j].key != teams[k].key
  {
    KeysAreTheGroups(d, |d.entries|);
    TeamsForIsExact(d, Keys(d));
  }

  /** Each planned team is joined by an applied row. */
  lemma {:induction false} PlannedTeamsAreJoined(batch: PlanInput, t: PlannedTeam)
    requires t in PlanOf(batch).newTeams
    ensures exists i :: 0 <= i < |batch.rows| && Applies(PlanOf(batch).rows[i]) && PlanOf(batch).rows[i].team == Some(ToNew(t.key))
  {
    var d := DraftOf(batch);
    DraftIsSound(batch);
    KeysAreTheGroups(d, |d.entries|);
    TeamsForIsExact(d, Keys(d));
    var i := CreatedTeamIsJoined(d, t.key);
    assert PlanOf(batch).rows[i] == RowOf(d, i);
  }

  /** An applied row of a team race gets a team of its race, stored or planned;
      an applied row of any other race gets none. */
  lemma {:induction false} AppliedRowResolves(batch: PlanInput, i: nat)
    requires BarlessRaces(batch)
    requires i < |batch.rows| && Applies(PlanOf(batch).rows[i])
    ensures batch.rows[i].raceID in batch.races
    ensures var raceID, team := batch.rows[i].raceID, PlanOf(batch).rows[i].team;
            if !batch.races[raceID].IsTeam() then team.None?
            else match team
              case Some(ToExisting(id)) => exists t :: t in batch.teams && t.id == id && t.raceID == raceID
              case Some(ToNew(key)) => exists t :: t in PlanOf(batch).newTeams && t.key == key && t.raceID == raceID
              case None => false
  {
    var d := DraftOf(batch);
    var row := batch.rows[i];
    DraftIsSound(batch);
    assert d.entries[i] == Entry(row, Judge(batch, i));
    if Joins(d.races, d.entries[i]) {
      var key := KeyOf(d.entries[i]);
      JoiningRow(d, i);
      LastByKeyIsListed(d.teams, key);
      GroupIsExact(d, key, |d.entries|);
      assert JoinsTeam(d, i, key);
      if TeamOf(d, key).Some? {
        var t := TeamOf(d, key).value;
        TeamKeyIsInjective(t.raceID, t.name, row.raceID, row.teamName);
      } else {
        KeysAreTheGroups(d, |d.entries|);
        TeamsForIsExact(d, Keys(d));
        assert CreatesTeam(d, key);
        GroupHasOneRace(d, key, i, Group(d, key)[0]);
        assert PlannedTeamOf(d, key) in PlanOf(batch).newTeams;
      }
    } else {
      OtherRow(d, i);
      JudgedRowIsValid(batch, i);
    }
  }

  // ---- places, legs and genders

  lemma {:induction false} CleanFitsSize(idx: seq<nat>, verdicts: seq<seq<Issue>>, free: int, n: nat)
    requires n <= |idx| == |verdicts|
    requires forall j :: 0 <= j < |verdicts| && verdicts[j] == [] ==> j < free
    ensures Clean(idx, verdicts, n) != [] ==> |Clean(idx, verdicts, n)| <= free
  {
    if n > 0 {
      CleanFitsSize(idx, verdicts, free, n - 1);
    }
  }

  lemma {:induction false} CleanMeansPlaceLeft(d: Draft, idx: seq<nat>, staying: seq<Existing>, size: int, j: nat)
    requires j < |idx| && forall k :: 0 <= k < |idx| ==> idx[k] < |d.entries|
    requires VerdictsFor(d, idx, staying, size)[j] == []
    ensures j < size - |staying|
  {
    assert VerdictsFor(d, idx, staying, size)[j] == SeatIssues(d, idx, staying, size, j);
  }

  /** Staying members and seated rows never exceed the team size; nobody is
      seated when the staying members fill the team already. */
  lemma {:induction false} GroupFitsSize(d: Draft, key: string)
    ensures Seated(d, key) != [] ==> |Staying(d, key)| + |Seated(d, key)| <= SizeOf(d, key)
    ensures |Staying(d, key)| >= SizeOf(d, key) ==> Seated(d, key) == []
  {
    forall j | 0 <= j < |Verdicts(d, key)| && Verdicts(d, key)[j] == []
      ensures j < SizeOf(d, key) - |Staying(d, key)|
    {
      CleanMeansPlaceLeft(d, Group(d, key), Staying(d, key), SizeOf(d, key), j);
    }
    CleanFitsSize(Group(d, key), Verdicts(d, key), SizeOf(d, key) - |Staying(d, key)|, |Group(d, key)|);
  }

  /** A seated row's leg is held by nobody staying and asked for by no row
      seated before it. */
  lemma {:induction false} SeatedLegsAreFree(d: Draft, key: string, j: nat, k: nat)
    requires j < |Group(d, key)| && Verdicts(d, key)[j] == []
    requires d.entries[Group(d, key)[j]].row.input.legOrder.Some?
    ensures !HoldsLeg(Staying(d, key), d.entries[Group(d, key)[j]].row.input.legOrder.value)
    ensures k < j ==> d.entries[Group(d, key)[k]].row.input.legOrder != d.entries[Group(d, key)[j]].row.input.legOrder
  {
    var idx := Group(d, key);
    var leg := d.entries[idx[j]].row.input.legOrder.value;
    assert Verdicts(d, key)[j] == SeatIssues(d, idx, Staying(d, key), SizeOf(d, key), j);
    assert !AsksLeg(d, idx[..j], leg);
    if k < j {
      assert idx[..j][k] == idx[k];
    }
  }

  lemma {:induction false} PositionOfSeated(d: Draft, key: string, i: nat) returns (j: nat)
    requires i in Seated(d, key)
    ensures JoinsTeam(d, i, key)
    ensures j < |Group(d, key)| && Group(d, key)[j] == i && Verdicts(d, key)[j] == []
  {
    var idx, verdicts := Group(d, key), Verdicts(d, key);
    GroupIsExact(d, key, |d.entries|);
    CleanAscends(idx, verdicts, |idx|);
    assert i in idx[..|idx|];
    j :| 0 <= j < |idx| && idx[j] == i;
    CleanIsExact(idx, verdicts, j, |idx|);
  }

  /** Seated rows of one group ask for different legs. */
  lemma {:induction false} SeatedLegsDiffer(d: Draft, key: string, i1: nat, i2: nat)
    requires i1 in Seated(d, key) && i2 in Seated(d, key) && i1 != i2
    ensures JoinsTeam(d, i1, key) && JoinsTeam(d, i2, key)
    ensures var l1, l2 := d.entries[i1].row.input.legOrder, d.entries[i2].row.input.legOrder;
            l1.Some? && l2.Some? ==> l1 != l2
  {
    var j := PositionOfSeated(d, key, i1);
    var k := PositionOfSeated(d, key, i2);
    if d.entries[i1].row.input.legOrder.Some? && d.entries[i2].row.input.legOrder.Some? {
      SeatedLegsAreFree(d, key, j, k);
      SeatedLegsAreFree(d, key, k, j);
    }
  }

  /** Nobody staying holds a seated row's leg. */
  lemma {:induction false} SeatedLegIsNew(d: Draft, key: string, i: nat)
    requires i in Seated(d, key)
    ensures JoinsTeam(d, i, key)
    ensures var leg := d.entries[i].row.input.legOrder; leg.Some? ==> !HoldsLeg(Staying(d, key), leg.value)
  {
    var j := PositionOfSeated(d, key, i);
    if d.entries[i].row.input.legOrder.Some? {
      SeatedLegsAreFree(d, key, j, j);
    }
  }
}
