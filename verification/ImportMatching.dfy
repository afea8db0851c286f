/** What pass 1 of an import answers, told from the rows of the file and the stored
    people alone: which rows it takes, whom it finds for them, what it reports. */
module ImportMatching {
  import opened Wrappers
  import opened Registration
  import opened TeamRules
  import opened ImportPlan
  import opened ImportSafety
  import opened ImportRefinement

  // ---- which rows are looked at any further

  /** The row names a race of the event, and a team if it is a team race; its fields
      suit the race; and no other row of the file has its BIB or its ref_id. */
  ghost predicate Acceptable(batch: PlanInput, i: nat)
    requires i < |batch.rows|
  {
    var row := batch.rows[i];
    && row.raceID in batch.races
    && var race := batch.races[row.raceID];
       && (race.entry == ByTeam ==> row.teamName != "")
       && (forall f :: Breaks(row.input, race, f) ==> f == TeamIDField && race.entry == ByTeam)
       && (forall k :: 0 <= k < |batch.rows| && k != i ==> batch.rows[k].input.bib != row.input.bib)
       && (row.input.refID.Some? ==> forall k :: 0 <= k < |batch.rows| && k != i ==> batch.rows[k].input.refID != row.input.refID)
  }

  lemma {:induction false} BibCount(rows: seq<ImportRow>, i: nat)
    requires i < |rows|
    ensures CountBib(rows, rows[i].input.bib) > 1 <==> exists k :: 0 <= k < |rows| && k != i && rows[k].input.bib == rows[i].input.bib
  {
    BibCountIsSize(rows, rows[i].input.bib);
    MoreThanOne(BibHolders(rows, rows[i].input.bib), i);
    if k: int :| 0 <= k < |rows| && k != i && rows[k].input.bib == rows[i].input.bib {
      assert k in BibHolders(rows, rows[i].input.bib);
    }
  }

  function BibHolders(rows: seq<ImportRow>, bib: int): set<nat> {
    set k | 0 <= k < |rows| && rows[k].input.bib == bib
  }

  function RefHolders(rows: seq<ImportRow>, ref: string): set<nat> {
    set k | 0 <= k < |rows| && rows[k].input.refID == Some(ref)
  }

  lemma {:induction false} BibCountIsSize(rows: seq<ImportRow>, bib: int)
    ensures CountBib(rows, bib) == |BibHolders(rows, bib)|
  {
    if rows != [] {
      var front, n := rows[..|rows| - 1], |rows| - 1;
      BibCountIsSize(front, bib);
      assert BibHolders(rows, bib) == BibHolders(front, bib) + if rows[n].input.bib == bib then {n} else {};
    }
  }

  lemma {:induction false} RefCountIsSize(rows: seq<ImportRow>, ref: string)
    ensures CountRef(rows, ref) == |RefHolders(rows, ref)|
  {
    if rows != [] {
      var front, n := rows[..|rows| - 1], |rows| - 1;
      RefCountIsSize(front, ref);
      assert RefHolders(rows, ref) == RefHolders(front, ref) + if rows[n].input.refID == Some(ref) then {n} else {};
    }
  }

  lemma {:induction false} MoreThanOne(s: set<nat>, i: nat)
    requires i in s
    ensures |s| > 1 <==> exists k :: k in s && k != i
  {
    assert s == {i} + (s - {i});
    if k :| k in s && k != i {
      assert k in s - {i};
    }
    if |s| > 1 {
      assert s - {i} != {};
      var k :| k in s - {i};
    }
  }

  lemma {:induction false} RefCount(rows: seq<ImportRow>, i: nat)
    requires i < |rows| && rows[i].input.refID.Some?
    ensures CountRef(rows, rows[i].input.refID.value) > 1 <==>
              exists k :: 0 <= k < |rows| && k != i && rows[k].input.refID == rows[i].input.refID
  {
    RefCountIsSize(rows, rows[i].input.refID.value);
    MoreThanOne(RefHolders(rows, rows[i].input.refID.value), i);
    if k: int :| 0 <= k < |rows| && k != i && rows[k].input.refID == rows[i].input.refID {
      assert k in RefHolders(rows, rows[i].input.refID.value);
    }
  }

  /** The row breaks this rule and none before it, the team aside in a team race. */
  ghost predicate IsFirstBroken(race: RaceFormat, row: ImportRow, f: Field) {
    && Breaks(row.input, race, f) && !(f == TeamIDField && race.entry == ByTeam)
    && forall g :: Rank(g) < Rank(f) && !(g == TeamIDField && race.entry == ByTeam) ==> !Breaks(row.input, race, g)
  }

  /** The error a row gets for its own fields is the first broken rule, the team aside
      in a team race. */
  lemma {:induction false} FieldIssuesAre(race: RaceFormat, row: ImportRow)
    ensures var issues := FieldIssues(race, row);
            if issues == [] then forall f :: Breaks(row.input, race, f) ==> f == TeamIDField && race.entry == ByTeam
            else
              && |issues| == 1 && issues[0].level == ErrorLevel && IsFirstBroken(race, row, issues[0].field)
  {
    var input := if race.IsTeam() then row.input.(teamID := Some(PENDING_TEAM)) else row.input;
    ValidateIsExact(input, race);
    forall f | f != TeamIDField
      ensures Breaks(input, race, f) <==> Breaks(row.input, race, f)
    {
    }
    assert race.IsTeam() ==> !Breaks(input, race, TeamIDField);
    assert !race.IsTeam() ==> input == row.input;
  }

  /** Pass 1 goes on with exactly the acceptable rows. */
  lemma {:induction false} ScreeningIsExact(batch: PlanInput, i: nat)
    requires i < |batch.rows|
    ensures HasError(Screen(batch, batch.rows[i])) <==> !Acceptable(batch, i)
  {
    var row := batch.rows[i];
    BibCount(batch.rows, i);
    if row.input.refID.Some? {
      RefCount(batch.rows, i);
    }
    if row.raceID in batch.races {
      var race := batch.races[row.raceID];
      FieldIssuesAre(race, row);
      ErrorsOfFive(BloodIssues(row), NameIssues(race, row), FieldIssues(race, row), BibIssues(batch, row), RefIssues(batch, row));
      assert row.input.bib < 1 ==> Breaks(row.input, race, BibField);
    } else {
      HasErrorOfSum(BloodIssues(row), Error(RaceField));
      assert Error(RaceField)[0].level == ErrorLevel;
    }
  }

  lemma {:induction false} ErrorsOfFive(a: seq<Issue>, b: seq<Issue>, c: seq<Issue>, d: seq<Issue>, e: seq<Issue>)
    requires forall i :: 0 <= i < |a| ==> a[i].level != ErrorLevel
    requires b != [] ==> b[0].level == ErrorLevel
    requires c != [] ==> c[0].level == ErrorLevel
    requires d != [] ==> d[0].level == ErrorLevel
    requires e != [] ==> e[0].level == ErrorLevel
    ensures HasError(a + b + c + d + e) <==> b != [] || c != [] || d != [] || e != []
  {
    HasErrorOfSum(a, b);
    HasErrorOfSum(a + b, c);
    HasErrorOfSum(a + b + c, d);
    HasErrorOfSum(a + b + c + d, e);
  }

  // ---- whom a row finds

  /** The row's ref_id is one person's and its BIB another's, or its ref_id is nobody's
      and its BIB that of somebody who has a ref_id of their own. */
  ghost predicate Contradicts(people: map<string, Participant>, input: Input) {
    && input.refID.Some?
    && exists q :: q in people && people[q].bib == input.bib
                   && ((exists p :: p in people && p != q && people[p].refID == input.refID)
                       || (people[q].refID.Some? && forall p :: p in people ==> people[p].refID != input.refID))
  }

  /** The row means this person: by its ref_id, or by its BIB when it states no ref_id or
      one that nobody has. */
  ghost predicate Means(people: map<string, Participant>, input: Input, p: string) {
    && p in people
    && ((input.refID.Some? && people[p].refID == input.refID)
        || (people[p].bib == input.bib && (input.refID.Some? ==> forall q :: q in people ==> people[q].refID != input.refID)))
  }

  lemma {:induction false} MatchIsExact(existing: seq<Existing>, people: map<string, Participant>, input: Input)
    requires ListsPeople(existing, people) && UniqueKeys(people)
    ensures var m := FindMatch(existing, input);
            && (m == Blocked <==> Contradicts(people, input))
            && (m == NoMatch <==> forall p :: !Means(people, input, p))
            && (m.Matched? ==> Means(people, input, m.who.id)
                               && (m.moves <==> people[m.who.id].bib != input.bib)
                               && forall p :: Means(people, input, p) ==> p == m.who.id)
  {
    BibLookupIsExact(existing, people, input.bib);
    var byBib := LastByBib(existing, input.bib);
    assert byBib.Some? && input.refID.None? ==> Means(people, input, byBib.value.id);
    if input.refID.Some? {
      RefLookupIsExact(existing, people, input.refID.value);
      var byRef := LastByRef(existing, input.refID.value);
      assert byRef.Some? ==> Means(people, input, byRef.value.id);
      assert byRef.None? && byBib.Some? ==> Means(people, input, byBib.value.id);
    }
  }

  /** What pass 1 decides. A row that is not acceptable, or contradicts the stored people,
      is rejected; any other creates somebody when it means nobody, and otherwise updates
      or skips, as the request says, the one person it means. */
  lemma {:induction false} DecisionIsExact(batch: PlanInput, people: map<string, Participant>, i: nat)
    requires ListsPeople(batch.existing, people) && UniqueKeys(people) && i < |batch.rows|
    ensures var rp, input := Judge(batch, i), batch.rows[i].input;
            && (rp.action == Rejected <==> !Acceptable(batch, i) || Contradicts(people, input))
            && (rp.action != Rejected ==>
                  && (forall p :: rp.existingID == Some(p) <==> Means(people, input, p))
                  && (rp.action == Create <==> forall p :: !Means(people, input, p))
                  && (rp.action == Update ==> batch.updateExisting) && (rp.action == Skip ==> !batch.updateExisting))
            && (rp.action == Rejected ==> rp.existingID.None?)
  {
    ScreeningIsExact(batch, i);
    MatchIsExact(batch.existing, people, batch.rows[i].input);
  }

  /** Every decision names its row: by its line, its BIB, and the one or two names stated. */
  lemma RowIsNamed(batch: PlanInput, i: nat)
    requires i < |batch.rows|
    ensures var rp, row, last := Judge(batch, i), batch.rows[i], batch.rows[i].input.details.lastName;
            && rp.line == row.line && rp.bib == row.input.bib
            && rp.name == if last.None? || |last.value| == 0 then row.input.details.firstName else row.input.details.firstName + " " + last.value
  {
  }

  /** What keeps a row from being acceptable, field by field. */
  ghost predicate Faulty(batch: PlanInput, i: nat, f: Field)
    requires i < |batch.rows|
  {
    var row := batch.rows[i];
    if row.raceID !in batch.races then f == RaceField
    else
      var race := batch.races[row.raceID];
      || (f == TeamNameField && race.entry == ByTeam && row.teamName == "")
      || IsFirstBroken(race, row, f)
      || (f == BibField && row.input.bib > 0 && exists k :: 0 <= k < |batch.rows| && k != i && batch.rows[k].input.bib == row.input.bib)
      || (f == RefField && row.input.refID.Some?
          && exists k :: 0 <= k < |batch.rows| && k != i && batch.rows[k].input.refID == row.input.refID)
  }

  lemma {:induction false} ScreenTells(batch: PlanInput, i: nat, f: Field)
    requires i < |batch.rows|
    ensures Issue(ErrorLevel, f) in Screen(batch, batch.rows[i]) <==> Faulty(batch, i, f)
  {
    var row := batch.rows[i];
    BibCount(batch.rows, i);
    if row.input.refID.Some? {
      RefCount(batch.rows, i);
    }
    if row.raceID in batch.races {
      FieldIssuesTell(batch.races[row.raceID], row, f);
    }
  }

  lemma {:induction false} FieldIssuesTell(race: RaceFormat, row: ImportRow, f: Field)
    ensures Issue(ErrorLevel, f) in FieldIssues(race, row) <==> IsFirstBroken(race, row, f)
  {
    FieldIssuesAre(race, row);
  }

  /** The errors of pass 1 are about exactly what is faulty, and about the BIB when a row
      that is acceptable contradicts the stored people. */
  lemma {:induction false} ErrorsOfPassOne(batch: PlanInput, people: map<string, Participant>, i: nat, f: Field)
    requires ListsPeople(batch.existing, people) && UniqueKeys(people) && i < |batch.rows|
    ensures Issue(ErrorLevel, f) in Judge(batch, i).issues <==>
              Faulty(batch, i, f) || (f == BibField && Acceptable(batch, i) && Contradicts(people, batch.rows[i].input))
  {
    ScreenTells(batch, i, f);
    ScreeningIsExact(batch, i);
    MatchIsExact(batch.existing, people, batch.rows[i].input);
  }

  /** And what it says in passing: an unknown blood type, a person who exists already, and
      a BIB that moves are remarked on, the last two both under the BIB. */
  lemma {:induction false} RemarksOfPassOne(batch: PlanInput, people: map<string, Participant>, i: nat)
    requires ListsPeople(batch.existing, people) && UniqueKeys(people) && i < |batch.rows| && Judge(batch, i).action != Rejected
    ensures var rp, row := Judge(batch, i), batch.rows[i];
            && rp.issues == (if row.badBloodType != "" then [Issue(WarningLevel, BloodTypeField)] else [])
                            + (if rp.existingID.Some? && rp.existingID.value in people && people[rp.existingID.value].bib != row.input.bib
                               then [Issue(WarningLevel, BibField)] else [])
                            + (if rp.existingID.Some? then [Issue(WarningLevel, BibField)] else [])
  {
    var row := batch.rows[i];
    DecisionIsExact(batch, people, i);
    ScreeningIsExact(batch, i);
    MatchIsExact(batch.existing, people, row.input);
    BibCount(batch.rows, i);
    if row.input.refID.Some? {
      RefCount(batch.rows, i);
    }
    FieldIssuesAre(batch.races[row.raceID], row);
  }

  /** The example of a BIB without a ref_id: the row is that person's, and brings the
      ref_id with it. */
  lemma {:induction false} BibWithoutRefIsFound(batch: PlanInput, people: map<string, Participant>, i: nat, q: string)
    requires ListsPeople(batch.existing, people) && UniqueKeys(people) && i < |batch.rows| && Acceptable(batch, i)
    requires q in people && people[q].bib == batch.rows[i].input.bib && people[q].refID.None?
    requires batch.rows[i].input.refID.Some? && forall p :: p in people ==> people[p].refID != batch.rows[i].input.refID
    ensures Judge(batch, i).action == (if batch.updateExisting then Update else Skip) && Judge(batch, i).existingID == Some(q)
  {
    DecisionIsExact(batch, people, i);
    assert Means(people, batch.rows[i].input, q);
  }
}
