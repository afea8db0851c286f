/** A concrete file that overfills a team: one of its rows is rejected and leaves
    the member it re-registers in place. */
module ImportTraps {
  import opened Wrappers
  import opened Text
  import opened Registration
  import opened ImportPlan
  import opened EventState
  import opened ImportApply
  import opened ImportSafety
  import opened EventRuns
  import opened Columns
  import opened SmallFiles

  const PAIRS := RaceFormat(ByTeam, Loop, Some(2), Some(TargetLaps), Some(1.0), Some(1), None)

  function Member(t: string): Participant {
    Participant("r", Some(t), None, 3, Male, None, RUNNER)
  }

  function Row(bib: int): ImportRow {
    ImportRow(bib, Input(RUNNER, bib, Male, None, None, None), "r", "T", BlankCategory, "")
  }

  /** A team of two with one member. */
  function Before(t: string): State {
    State(map["r" := PAIRS], map[t := Team("r", "T", MaleTeam)], map["p" := Member(t)])
  }

  /** Two new people join the team, then the member is re-registered. */
  function File(t: string): PlanInput {
    PlanInput(
      [Row(1), Row(2), Row(3)], true, map["r" := PAIRS],
      [ViewOf("p", Member(t))],
      [ExistingTeam(t, "r", "T", MaleTeam, [MemberView("p", Member(t))])])
  }

  lemma {:induction false} RowsScreenClean(t: string, i: nat)
    requires i < 3
    ensures Screen(File(t), File(t).rows[i]) == []
  {
    var rows, bib := File(t).rows, File(t).rows[i].input.bib;
    assert rows[..2] == [Row(1), Row(2)] && rows[..2][..1] == [Row(1)] && rows[..2][..1][..0] == [];
    assert CountBib(rows[..2][..1], bib) <= 1;
    assert CountBib(rows[..2], bib) == (if bib == 1 then 1 else 0) + (if bib == 2 then 1 else 0);
    assert CountBib(rows, bib) == 1;
  }

  lemma {:induction false} RowsAreJudged(t: string)
    ensures Judge(File(t), 0).action == Create && Judge(File(t), 1).action == Create
    ensures Judge(File(t), 0).existingID == None && Judge(File(t), 1).existingID == None
    ensures Judge(File(t), 2).action == Update && Judge(File(t), 2).existingID == Some("p")
  {
    RowsScreenClean(t, 0);
    RowsScreenClean(t, 1);
    RowsScreenClean(t, 2);
    OnlyOneIsListed(ViewOf("p", Member(t)), 1);
    OnlyOneIsListed(ViewOf("p", Member(t)), 2);
    OnlyOneIsListed(ViewOf("p", Member(t)), 3);
  }

  /** What pass 1 makes of the file. */
  predicate Drafted(t: string, d: Draft) {
    && d.races == map["r" := PAIRS] && d.teams == File(t).teams && |d.entries| == 3
    && (forall i :: 0 <= i < 3 ==> d.entries[i].row == File(t).rows[i])
    && d.entries[0].judged.action == Create && d.entries[0].judged.existingID == None
    && d.entries[1].judged.action == Create && d.entries[1].judged.existingID == None
    && d.entries[2].judged.action == Update && d.entries[2].judged.existingID == Some("p")
  }

  lemma {:induction false} FileIsDrafted(t: string)
    ensures Drafted(t, DraftOf(File(t)))
  {
    RowsAreJudged(t);
  }

  lemma {:induction false} GroupOfFile(t: string, d: Draft)
    requires Drafted(t, d)
    ensures Group(d, KeyT()) == [0, 1, 2]
    ensures forall i :: 0 <= i < 3 ==> JoinsTeam(d, i, KeyT())
  {
    assert JoinsTeam(d, 0, KeyT()) && JoinsTeam(d, 1, KeyT()) && JoinsTeam(d, 2, KeyT());
    assert GroupUpTo(d, KeyT(), 1) == [0];
    assert GroupUpTo(d, KeyT(), 2) == [0, 1];
  }

  lemma {:induction false} TeamOfFile(t: string, d: Draft)
    requires Drafted(t, d)
    ensures TeamOf(d, KeyT()) == Some(File(t).teams[0])
    ensures Staying(d, KeyT()) == [] && SizeOf(d, KeyT()) == 2
  {
    GroupOfFile(t, d);
    assert d.entries[Group(d, KeyT())[2]].judged.existingID.value == "p";
    assert "p" in Reregistered(d, Group(d, KeyT()));
    var members := File(t).teams[0].members;
    assert members[..0] == [] && Without(members[..0], Reregistered(d, Group(d, KeyT()))) == [];
  }

  /** Without legs only the places count. */
  lemma LeglessVerdict(d: Draft, idx: seq<nat>, size: int, j: nat)
    requires forall k :: 0 <= k < |idx| ==> idx[k] < |d.entries|
    requires j < |idx| && d.entries[idx[j]].row.input.legOrder.None?
    ensures VerdictsFor(d, idx, [], size)[j] == if j >= size then Error(TeamNameField) else []
  {
  }

  lemma {:induction false} FirstTwoAreClean(idx: seq<nat>, verdicts: seq<seq<Issue>>)
    requires |idx| == |verdicts| == 3 && verdicts[0] == [] && verdicts[1] == [] && verdicts[2] != []
    ensures Clean(idx, verdicts, 3) == [idx[0], idx[1]]
  {
    assert Clean(idx, verdicts, 1) == [idx[0]];
    assert Clean(idx, verdicts, 2) == [idx[0], idx[1]];
  }

  /** The two new people take the two places. */
  lemma {:induction false} TwoAreSeated(d: Draft, key: string)
    requires |d.entries| == 3 && Group(d, key) == [0, 1, 2] && Staying(d, key) == [] && SizeOf(d, key) == 2
    requires forall i :: 0 <= i < 3 ==> d.entries[i].row.input.legOrder.None?
    ensures Seated(d, key) == [0, 1]
  {
    LeglessVerdict(d, [0, 1, 2], 2, 0);
    LeglessVerdict(d, [0, 1, 2], 2, 1);
    LeglessVerdict(d, [0, 1, 2], 2, 2);
    FirstTwoAreClean([0, 1, 2], Verdicts(d, key));
  }

  lemma {:induction false} SeatsOfFile(t: string, d: Draft)
    requires Drafted(t, d)
    ensures Seated(d, KeyT()) == [0, 1]
  {
    GroupOfFile(t, d);
    TeamOfFile(t, d);
    TwoAreSeated(d, KeyT());
  }

  lemma {:induction false} GendersOfTwo(d: Draft, key: string)
    requires |d.entries| == 3 && Staying(d, key) == [] && Seated(d, key) == [0, 1]
    ensures TeamGenders(d, key) == [d.entries[0].row.input.gender, d.entries[1].row.input.gender]
  {
  }

  lemma {:induction false} TeamForms(t: string, d: Draft)
    requires Drafted(t, d)
    ensures Forms(d, KeyT())
  {
    GroupOfFile(t, d);
    TeamOfFile(t, d);
    SeatsOfFile(t, d);
    GendersOfTwo(d, KeyT());
    StoredTeamForms(d, KeyT());
  }

  lemma {:induction false} TeamIsStored(t: string, d: Draft)
    requires Drafted(t, d)
    ensures TeamOf(d, KeyT()).Some?
  {
    TeamOfFile(t, d);
  }

  lemma RowsNameTheTeam(t: string)
    ensures forall i :: 0 <= i < |File(t).rows| ==> File(t).rows[i].raceID == "r" && File(t).rows[i].teamName == "T"
  {
  }

  lemma {:induction false} NoTeamIsPlanned(t: string)
    ensures PlanOf(File(t)).newTeams == []
  {
    FileIsDrafted(t);
    TeamIsStored(t, DraftOf(File(t)));
    RowsNameTheTeam(t);
    NoTeamIsNew(File(t), KeyT());
  }

  /** Two rows create members of the team, the third is rejected. */
  predicate TwoJoinOneStays(t: string, rows: seq<RowPlan>) {
    && |rows| == 3
    && rows[0].action == Create && rows[0].team == Some(ToExisting(t))
    && rows[1].action == Create && rows[1].team == Some(ToExisting(t))
    && rows[2].action == Rejected && rows[2].existingID == Some("p")
  }

  lemma {:induction false} RowIsPlanned(t: string, k: nat)
    requires k < 3
    ensures var rp := PlanOf(File(t)).rows[k];
            if k < 2 then rp.action == Create && rp.team == Some(ToExisting(t))
            else rp.action == Rejected && rp.existingID == Some("p")
  {
    var d := DraftOf(File(t));
    DraftIsSound(File(t));
    FileIsDrafted(t);
    GroupOfFile(t, d);
    TeamOfFile(t, d);
    SeatsOfFile(t, d);
    TeamForms(t, d);
    RowEnds(t, d, k);
  }

  lemma {:induction false} RowEnds(t: string, d: Draft, k: nat)
    requires Sound(d) && k < |d.entries| == 3 && JoinsTeam(d, k, KeyT())
    requires Forms(d, KeyT()) && Seated(d, KeyT()) == [0, 1] && TeamOf(d, KeyT()) == Some(File(t).teams[0])
    ensures var rp := RowOf(d, k);
            && rp.existingID == d.entries[k].judged.existingID
            && if k < 2 then rp.action == d.entries[k].judged.action && rp.team == Some(ToExisting(t)) else rp.action == Rejected
  {
    JoiningRow(d, k);
  }

  lemma {:induction false} FileIsPlanned(t: string)
    ensures TwoJoinOneStays(t, PlanOf(File(t)).rows)
  {
    RowIsPlanned(t, 0);
    RowIsPlanned(t, 1);
    RowIsPlanned(t, 2);
  }

  function TheRun(t: string): Run {
    Run(Before(t), File(t), [], ["x", "y", "z"])
  }

  function Newcomer(t: string, bib: int): Participant {
    Participant("r", Some(t), None, bib, Male, None, RUNNER)
  }

  function After(t: string): State {
    Before(t).(people := map["p" := Member(t), "x" := Newcomer(t, 1), "y" := Newcomer(t, 2)])
  }

  /** Executing a plan that creates twice and then rejects. */
  lemma {:induction false} TwoCreates(s: State, rows: seq<ImportRow>, plans: seq<RowPlan>, newIDs: map<string, string>, ids: seq<string>, s1: State, s2: State)
    requires |rows| == |plans| == |ids| == 3
    requires plans[0].action == Create && plans[1].action == Create && plans[2].action == Rejected
    requires PutPerson(s, ids[0], Created(s.races, rows[0], plans[0], newIDs)) == Ok(s1)
    requires PutPerson(s1, ids[1], Created(s1.races, rows[1], plans[1], newIDs)) == Ok(s2)
    ensures ApplyRows(s, rows, plans, newIDs, ids, 3) == Ok(s2)
  {
    assert ApplyRows(s, rows, plans, newIDs, ids, 1) == Ok(s1);
    assert ApplyRows(s, rows, plans, newIDs, ids, 2) == Ok(s2);
  }

  function Between(t: string): State {
    Before(t).(people := map["p" := Member(t), "x" := Newcomer(t, 1)])
  }

  lemma NewcomersGoIn(t: string)
    ensures PutPerson(Before(t), "x", Newcomer(t, 1)) == Ok(Between(t))
    ensures PutPerson(Between(t), "y", Newcomer(t, 2)) == Ok(After(t))
  {
  }

  lemma NewcomerOfRow(t: string, bib: int, rp: RowPlan)
    requires rp.team == Some(ToExisting(t))
    ensures Created(Before(t).races, Row(bib), rp, map[]) == Newcomer(t, bib)
  {
  }

  /** Executing the plan writes the two newcomers and leaves the member. */
  lemma {:induction false} WritesOfFile(t: string, plan: Plan)
    requires plan.newTeams == [] && TwoJoinOneStays(t, plan.rows)
    ensures ApplyPlan(Before(t), File(t).rows, plan, [], TheRun(t).freshIDs) == Ok(After(t))
  {
    NewcomersGoIn(t);
    NewcomerOfRow(t, 1, plan.rows[0]);
    NewcomerOfRow(t, 2, plan.rows[1]);
    TwoCreates(Before(t), File(t).rows, plan.rows, map[], TheRun(t).freshIDs, Between(t), After(t));
  }

  lemma {:induction false} ThreeInATeamOfTwo(t: string)
    ensures |MembersOf(After(t).people, t)| == 3 > PAIRS.Size()
    ensures !Valid(After(t))
  {
    var members := MembersOf(After(t).people, t);
    assert members == map["p" := Member(t), "x" := Newcomer(t, 1), "y" := Newcomer(t, 2)];
    assert members.Keys == {"p", "x", "y"};
    assert !TeamFine(After(t).teams[t], After(t).races["r"], members);
  }

  lemma {:induction false} StateIsListed(t: string)
    ensures ListsPeople(File(t).existing, Before(t).people)
    ensures ListsTeams(File(t).teams, Before(t))
  {
    OneIsListed("p", Member(t));
    assert MembersOf(Before(t).people, t) == map["p" := Member(t)];
    OneTeamIsListed(File(t).teams[0], Before(t));
  }

  lemma {:induction false} StateIsValid(t: string)
    ensures Valid(Before(t))
  {
    FormatIsKept(t);
    assert |Before(t).people| == 1;
    OneTeamIsValid(Before(t), "r", t);
  }

  lemma {:induction false} FormatIsKept(t: string)
    ensures FormatKept(PAIRS) && Barless("r")
    ensures forall race :: race in Before(t).races ==> Barless(race) && FormatKept(Before(t).races[race])
  {
    HundredthsAreExact(100);
  }

  lemma IdsOfRunAreNew(t: string)
    ensures IdsAreNew([], Before(t).teams.Keys) && IdsAreNew(TheRun(t).freshIDs, Before(t).people.Keys) && BibsFit(File(t).rows)
  {
  }

  lemma {:induction false} RunIsReady(t: string)
    ensures TheRun(t).Ready()
  {
    NoTeamIsPlanned(t);
    StateIsListed(t);
    FormatIsKept(t);
    IdsOfRunAreNew(t);
    MakesReady(TheRun(t));
  }

  lemma {:induction false} OutcomeOfRun(t: string)
    ensures |TheRun(t).teamIDs| == |PlanOf(File(t)).newTeams|
    ensures TheRun(t).Outcome() == Ok(After(t))
  {
    NoTeamIsPlanned(t);
    FileIsPlanned(t);
    WritesOfFile(t, PlanOf(File(t)));
  }

  /** The import succeeds and leaves three members in a team of two; its
      rejected row re-registered a member of its own team. */
  lemma {:induction false} RejectedMemberOverfillsTeam(t: string)
    ensures Valid(Before(t)) && TheRun(t).Ready() && TheRun(t).Outcome() == Ok(After(t))
    ensures |MembersOf(After(t).people, t)| == 3 > PAIRS.Size() && !Valid(After(t))
    ensures !NoMemberRejected(Before(t), File(t).rows, PlanOf(File(t)))
  {
    FileIsPlanned(t);
    StateIsValid(t);
    RunIsReady(t);
    OutcomeOfRun(t);
    ThreeInATeamOfTwo(t);
    assert ReregistersOwnMember(Before(t), File(t).rows[2], PlanOf(File(t)).rows[2]);
  }
}
