/** A concrete file whose import fails though nobody interferes: the two members
    of a relay team swap their legs. */
module LegSwapTrap {
  import opened Wrappers
  import opened Text
  import opened Registration
  import opened ImportPlan
  import opened EventState
  import opened ImportSafety
  import opened ImportLegs
  import opened Columns
  import opened SmallFiles

  const RELAY := RaceFormat(ByTeam, Relay, Some(2), None, None, None, None)

  /** Who runs under a BIB, on which leg. */
  function Member(t: string, bib: int, leg: int): Participant {
    Participant("r", Some(t), Some(leg), bib, Male, None, RUNNER)
  }

  function Row(bib: int, leg: int): ImportRow {
    ImportRow(bib, Input(RUNNER, bib, Male, None, None, Some(leg)), "r", "T", BlankCategory, "")
  }

  /** A team of two: a runs leg 1, b runs leg 2. */
  function Before(t: string): State {
    State(map["r" := RELAY], map[t := Team("r", "T", MaleTeam)], map["a" := Member(t, 1, 1), "b" := Member(t, 2, 2)])
  }

  /** The file swaps them. */
  function File(t: string): PlanInput {
    PlanInput(
      [Row(1, 2), Row(2, 1)], true, map["r" := RELAY],
      [ViewOf("a", Member(t, 1, 1)), ViewOf("b", Member(t, 2, 2))],
      [ExistingTeam(t, "r", "T", MaleTeam, [MemberView("a", Member(t, 1, 1)), MemberView("b", Member(t, 2, 2))])])
  }

  lemma {:induction false} RowsScreenClean(t: string, i: nat)
    requires i < 2
    ensures Screen(File(t), File(t).rows[i]) == []
  {
    var rows, bib := File(t).rows, File(t).rows[i].input.bib;
    assert rows[..1] == [Row(1, 2)] && rows[..1][..0] == [];
    assert CountBib(rows[..1], bib) == if bib == 1 then 1 else 0;
    assert CountBib(rows, bib) == 1;
  }

  lemma {:induction false} RowsAreJudged(t: string)
    ensures Judge(File(t), 0).action == Update && Judge(File(t), 0).existingID == Some("a")
    ensures Judge(File(t), 1).action == Update && Judge(File(t), 1).existingID == Some("b")
  {
    RowsScreenClean(t, 0);
    RowsScreenClean(t, 1);
    assert File(t).existing[..1] == [ViewOf("a", Member(t, 1, 1))];
    assert LastByBib(File(t).existing[..1], 1) == Some(ViewOf("a", Member(t, 1, 1)));
    assert LastByBib(File(t).existing, 1) == Some(ViewOf("a", Member(t, 1, 1)));
    assert LastByBib(File(t).existing, 2) == Some(ViewOf("b", Member(t, 2, 2)));
  }

  /** What pass 1 makes of the file. */
  predicate Drafted(t: string, d: Draft) {
    && d.races == map["r" := RELAY] && d.teams == File(t).teams && |d.entries| == 2
    && (forall i :: 0 <= i < 2 ==> d.entries[i].row == File(t).rows[i])
    && d.entries[0].judged.action == Update && d.entries[0].judged.existingID == Some("a")
    && d.entries[1].judged.action == Update && d.entries[1].judged.existingID == Some("b")
  }

  lemma {:induction false} FileIsDrafted(t: string)
    ensures Drafted(t, DraftOf(File(t)))
  {
    RowsAreJudged(t);
  }

  lemma {:induction false} GroupOfFile(t: string, d: Draft)
    requires Drafted(t, d)
    ensures Group(d, KeyT()) == [0, 1]
    ensures forall i :: 0 <= i < 2 ==> JoinsTeam(d, i, KeyT())
  {
    assert JoinsTeam(d, 0, KeyT()) && JoinsTeam(d, 1, KeyT());
    assert GroupUpTo(d, KeyT(), 1) == [0];
  }

  /** Both members are re-registered, so both places and both legs are free. */
  lemma {:induction false} TeamOfFile(t: string, d: Draft)
    requires Drafted(t, d)
    ensures TeamOf(d, KeyT()) == Some(File(t).teams[0])
    ensures Staying(d, KeyT()) == [] && SizeOf(d, KeyT()) == 2
  {
    GroupOfFile(t, d);
    var gone, members := Reregistered(d, Group(d, KeyT())), File(t).teams[0].members;
    assert d.entries[Group(d, KeyT())[0]].judged.existingID.value == "a" && "a" in gone;
    assert d.entries[Group(d, KeyT())[1]].judged.existingID.value == "b" && "b" in gone;
    assert members[..1] == [MemberView("a", Member(t, 1, 1))] && members[..1][..0] == [];
    assert Without(members[..1], gone) == [];
  }

  lemma {:induction false} BothAreClean(idx: seq<nat>, verdicts: seq<seq<Issue>>)
    requires |idx| == |verdicts| == 2 && verdicts[0] == [] && verdicts[1] == []
    ensures Clean(idx, verdicts, 2) == [idx[0], idx[1]]
  {
    assert Clean(idx, verdicts, 1) == [idx[0]];
  }

  /** Two rows with different legs share two free places. */
  lemma {:induction false} BothAreSeated(d: Draft, key: string)
    requires |d.entries| == 2 && Group(d, key) == [0, 1] && Staying(d, key) == [] && SizeOf(d, key) == 2
    requires d.entries[0].row.input.legOrder != d.entries[1].row.input.legOrder
    ensures Seated(d, key) == [0, 1]
  {
    FreeSeat(d, [0, 1], 2, 0);
    FreeSeat(d, [0, 1], 2, 1);
    BothAreClean([0, 1], Verdicts(d, key));
  }

  lemma {:induction false} SeatsOfFile(t: string, d: Draft)
    requires Drafted(t, d)
    ensures Seated(d, KeyT()) == [0, 1]
  {
    GroupOfFile(t, d);
    TeamOfFile(t, d);
    BothAreSeated(d, KeyT());
  }

  lemma {:induction false} GendersOfTwo(d: Draft, key: string)
    requires |d.entries| == 2 && Staying(d, key) == [] && Seated(d, key) == [0, 1]
    ensures TeamGenders(d, key) == [d.entries[0].row.input.gender, d.entries[1].row.input.gender]
  {
  }

  lemma {:induction false} TeamForms(t: string, d: Draft)
    requires Drafted(t, d)
    ensures Forms(d, KeyT())
  {
    GroupOfFile(t, d);
    TeamOfFile(t, d);
    SeatsOfFile(t, d);
    GendersOfTwo(d, KeyT());
  }

  /** Planning finds nothing wrong with the swap. */
  lemma {:induction false} RowIsSeated(t: string, k: nat)
    requires k < 2
    ensures var rp := PlanOf(File(t)).rows[k];
            rp.action == Update && rp.existingID == Some(if k == 0 then "a" else "b") && rp.team == Some(ToExisting(t))
  {
    var d := DraftOf(File(t));
    DraftIsSound(File(t));
    FileIsDrafted(t);
    GroupOfFile(t, d);
    TeamOfFile(t, d);
    SeatsOfFile(t, d);
    TeamForms(t, d);
    JoiningRow(d, k);
  }

  lemma {:induction false} TeamIsStored(t: string, d: Draft)
    requires Drafted(t, d)
    ensures TeamOf(d, KeyT()).Some?
  {
    TeamOfFile(t, d);
  }

  lemma RowsNameTheTeam(t: string)
    ensures forall i :: 0 <= i < |File(t).rows| ==> File(t).rows[i].raceID == "r" && File(t).rows[i].teamName == "T"
  {
  }

  lemma {:induction false} NoTeamIsPlanned(t: string)
    ensures PlanOf(File(t)).newTeams == []
  {
    FileIsDrafted(t);
    TeamIsStored(t, DraftOf(File(t)));
    RowsNameTheTeam(t);
    NoTeamIsNew(File(t), KeyT());
  }

  lemma {:induction false} RelayIsKept(t: string)
    ensures FormatKept(RELAY) && Barless("r")
    ensures forall race :: race in Before(t).races ==> Barless(race) && FormatKept(Before(t).races[race])
  {
  }

  lemma {:induction false} TwoAreFine(t: string)
    ensures TeamFine(Team("r", "T", MaleTeam), RELAY, Before(t).people)
  {
    assert Before(t).people.Keys == {"a", "b"};
    assert |Before(t).people| == |Before(t).people.Keys|;
  }

  lemma {:induction false} StateIsValid(t: string)
    ensures Valid(Before(t))
  {
    RelayIsKept(t);
    TwoAreFine(t);
    OneTeamIsValid(Before(t), "r", t);
  }

  lemma {:induction false} StateIsListed(t: string)
    ensures ListsPeople(File(t).existing, Before(t).people)
    ensures ListsTeams(File(t).teams, Before(t))
  {
    TwoAreListed("a", Member(t, 1, 1), "b", Member(t, 2, 2));
    assert MembersOf(Before(t).people, t) == Before(t).people;
    OneTeamIsListed(File(t).teams[0], Before(t));
  }

  function TheRun(t: string): Run {
    Run(Before(t), File(t), [], ["x", "y"])
  }

  lemma {:induction false} RunIsReady(t: string)
    ensures TheRun(t).Ready()
  {
    NoTeamIsPlanned(t);
    StateIsListed(t);
    RelayIsKept(t);
    IdsOfRunAreNew(t);
    MakesReady(TheRun(t));
  }

  lemma IdsOfRunAreNew(t: string)
    ensures IdsAreNew([], Before(t).teams.Keys) && IdsAreNew(TheRun(t).freshIDs, Before(t).people.Keys) && BibsFit(File(t).rows)
  {
  }

  lemma {:induction false} LegTwoIsHeld(t: string, plans: seq<RowPlan>)
    requires |plans| == 2 && plans[0].action == Update && plans[0].team == Some(ToExisting(t)) && plans[0].existingID == Some("a")
    ensures LegStillHeld(Before(t), File(t).rows, plans, 0, "b")
  {
  }

  lemma {:induction false} SwapIsPlanned(t: string)
    ensures |PlanOf(File(t)).rows| == 2
    ensures forall i :: 0 <= i < 2 ==> PlanOf(File(t)).rows[i].action == Update
    ensures PlanOf(File(t)).rows[0].team == Some(ToExisting(t)) && PlanOf(File(t)).rows[0].existingID == Some("a")
  {
    RowIsSeated(t, 0);
    RowIsSeated(t, 1);
  }

  /** The plan accepts the swap, no row is in error, nobody else writes, and the
      import fails: a is to take leg 2 while b still holds it. */
  lemma {:induction false} LegSwapFails(t: string)
    ensures Valid(Before(t)) && TheRun(t).Ready() && TheRun(t).Outcome() == Err(LegTaken)
    ensures forall i :: 0 <= i < |PlanOf(File(t)).rows| ==> PlanOf(File(t)).rows[i].action == Update
  {
    StateIsValid(t);
    RunIsReady(t);
    SwapIsPlanned(t);
    LegTwoIsHeld(t, PlanOf(File(t)).rows);
    ImportFailsIff(TheRun(t));
  }
}
