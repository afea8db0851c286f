/** A concrete file that fills a mixed team with one gender: its second row is
    rejected and leaves the member it re-registers in place. */
module MixedTrap {
  import opened Wrappers
  import opened Text
  import opened Registration
  import opened Columns
  import opened ImportPlan
  import opened EventState
  import opened ImportApply
  import opened ImportSafety
  import opened EventRuns
  import opened SmallFiles

  const RELAY := RaceFormat(ByTeam, Relay, Some(2), None, None, None, None)

  /** A man who runs under a BIB, on a leg. */
  function Man(t: string, bib: int, leg: int): Participant {
    Participant("r", Some(t), Some(leg), bib, Male, None, RUNNER)
  }

  function Row(bib: int, leg: int): ImportRow {
    ImportRow(bib, Input(RUNNER, bib, Male, None, None, Some(leg)), "r", "T", BlankCategory, "")
  }

  /** A mixed team of two with one man in it, on leg 2. */
  function Before(t: string): State {
    State(map["r" := RELAY], map[t := Team("r", "T", MixedTeam)], map["p" := Man(t, 2, 2)])
  }

  /** A new man takes leg 1, and then the member asks for leg 1, too. */
  function File(t: string): PlanInput {
    PlanInput(
      [Row(1, 1), Row(2, 1)], true, map["r" := RELAY],
      [ViewOf("p", Man(t, 2, 2))],
      [ExistingTeam(t, "r", "T", MixedTeam, [MemberView("p", Man(t, 2, 2))])])
  }

  lemma {:induction false} RowsScreenClean(t: string, i: nat)
    requires i < 2
    ensures Screen(File(t), File(t).rows[i]) == []
  {
    var rows, bib := File(t).rows, File(t).rows[i].input.bib;
    assert rows[..1] == [Row(1, 1)] && rows[..1][..0] == [];
    assert CountBib(rows[..1], bib) == if bib == 1 then 1 else 0;
    assert CountBib(rows, bib) == 1;
  }

  lemma {:induction false} RowsAreJudged(t: string)
    ensures Judge(File(t), 0).action == Create && Judge(File(t), 0).existingID == None
    ensures Judge(File(t), 1).action == Update && Judge(File(t), 1).existingID == Some("p")
  {
    RowsScreenClean(t, 0);
    RowsScreenClean(t, 1);
    OnlyOneIsListed(ViewOf("p", Man(t, 2, 2)), 1);
    OnlyOneIsListed(ViewOf("p", Man(t, 2, 2)), 2);
  }

  /** What pass 1 makes of the file. */
  predicate Drafted(t: string, d: Draft) {
    && d.races == map["r" := RELAY] && d.teams == File(t).teams && |d.entries| == 2
    && (forall i :: 0 <= i < 2 ==> d.entries[i].row == File(t).rows[i])
    && d.entries[0].judged.action == Create && d.entries[0].judged.existingID == None
    && d.entries[1].judged.action == Update && d.entries[1].judged.existingID == Some("p")
  }

  lemma {:induction false} FileIsDrafted(t: string)
    ensures Drafted(t, DraftOf(File(t)))
  {
    RowsAreJudged(t);
  }

  lemma {:induction false} GroupOfFile(t: string, d: Draft)
    requires Drafted(t, d)
    ensures Group(d, KeyT()) == [0, 1]
    ensures forall i :: 0 <= i < 2 ==> JoinsTeam(d, i, KeyT())
  {
    assert JoinsTeam(d, 0, KeyT()) && JoinsTeam(d, 1, KeyT());
    assert GroupUpTo(d, KeyT(), 1) == [0];
  }

  /** The member is re-registered, so the planner counts them out. */
  lemma {:induction false} TeamOfFile(t: string, d: Draft)
    requires Drafted(t, d)
    ensures TeamOf(d, KeyT()) == Some(File(t).teams[0])
    ensures Staying(d, KeyT()) == [] && SizeOf(d, KeyT()) == 2
  {
    GroupOfFile(t, d);
    var gone, members := Reregistered(d, Group(d, KeyT())), File(t).teams[0].members;
    assert d.entries[Group(d, KeyT())[1]].judged.existingID.value == "p" && "p" in gone;
    assert members[..0] == [] && Without(members[..0], gone) == [];
  }

  lemma {:induction false} FirstIsClean(idx: seq<nat>, verdicts: seq<seq<Issue>>)
    requires |idx| == |verdicts| == 2 && verdicts[0] == [] && verdicts[1] != []
    ensures Clean(idx, verdicts, 2) == [idx[0]]
  {
    assert Clean(idx, verdicts, 1) == [idx[0]];
  }

  /** Of two rows that ask for one leg the first is seated. */
  lemma {:induction false} FirstIsSeated(d: Draft, key: string)
    requires |d.entries| == 2 && Group(d, key) == [0, 1] && Staying(d, key) == [] && SizeOf(d, key) == 2
    requires d.entries[0].row.input.legOrder.Some? && d.entries[1].row.input.legOrder == d.entries[0].row.input.legOrder
    ensures Seated(d, key) == [0]
  {
    FreeSeat(d, [0, 1], 2, 0);
    RepeatedLeg(d, 2);
    FirstIsClean([0, 1], Verdicts(d, key));
  }

  lemma {:induction false} SeatsOfFile(t: string, d: Draft)
    requires Drafted(t, d)
    ensures Seated(d, KeyT()) == [0]
  {
    GroupOfFile(t, d);
    TeamOfFile(t, d);
    FirstIsSeated(d, KeyT());
  }

  lemma {:induction false} GendersOfOne(d: Draft, key: string)
    requires |d.entries| == 2 && Staying(d, key) == [] && Seated(d, key) == [0]
    ensures TeamGenders(d, key) == [d.entries[0].row.input.gender]
  {
  }

  /** One man alone is no clash in a mixed team of two. */
  lemma {:induction false} TeamForms(t: string, d: Draft)
    requires Drafted(t, d)
    ensures Forms(d, KeyT())
  {
    GroupOfFile(t, d);
    TeamOfFile(t, d);
    SeatsOfFile(t, d);
    GendersOfOne(d, KeyT());
    StoredTeamForms(d, KeyT());
  }

  lemma {:induction false} RowIsPlanned(t: string, k: nat)
    requires k < 2
    ensures var rp := PlanOf(File(t)).rows[k];
            if k == 0 then rp.action == Create && rp.team == Some(ToExisting(t))
            else rp.action == Rejected && rp.existingID == Some("p")
  {
    var d := DraftOf(File(t));
    DraftIsSound(File(t));
    FileIsDrafted(t);
    GroupOfFile(t, d);
    TeamOfFile(t, d);
    SeatsOfFile(t, d);
    TeamForms(t, d);
    JoiningRow(d, k);
  }

  function TheRun(t: string): Run {
    Run(Before(t), File(t), [], ["x", "y"])
  }

  function After(t: string): State {
    Before(t).(people := map["p" := Man(t, 2, 2), "x" := Man(t, 1, 1)])
  }

  lemma {:induction false} TeamIsStored(t: string, d: Draft)
    requires Drafted(t, d)
    ensures TeamOf(d, KeyT()).Some?
  {
    TeamOfFile(t, d);
  }

  lemma RowsNameTheTeam(t: string)
    ensures forall i :: 0 <= i < |File(t).rows| ==> File(t).rows[i].raceID == "r" && File(t).rows[i].teamName == "T"
  {
  }

  lemma {:induction false} NoTeamIsPlanned(t: string)
    ensures PlanOf(File(t)).newTeams == []
  {
    FileIsDrafted(t);
    TeamIsStored(t, DraftOf(File(t)));
    RowsNameTheTeam(t);
    NoTeamIsNew(File(t), KeyT());
  }

  lemma {:induction false} NewcomerGoesIn(t: string)
    ensures PutPerson(Before(t), "x", Man(t, 1, 1)) == Ok(After(t))
  {
  }

  /** Executing a plan that creates once and then rejects. */
  lemma {:induction false} OneCreate(s: State, rows: seq<ImportRow>, plans: seq<RowPlan>, newIDs: map<string, string>, ids: seq<string>)
    requires |rows| == |plans| == |ids| == 2 && plans[0].action == Create && plans[1].action == Rejected
    ensures ApplyRows(s, rows, plans, newIDs, ids, 2) == PutPerson(s, ids[0], Created(s.races, rows[0], plans[0], newIDs))
  {
    assert ApplyRows(s, rows, plans, newIDs, ids, 0) == Ok(s);
  }

  lemma {:induction false} WritesOfFile(t: string, plan: Plan)
    requires plan.newTeams == [] && |plan.rows| == 2
    requires plan.rows[0].action == Create && plan.rows[0].team == Some(ToExisting(t)) && plan.rows[1].action == Rejected
    ensures ApplyPlan(Before(t), File(t).rows, plan, [], TheRun(t).freshIDs) == Ok(After(t))
  {
    NewcomerGoesIn(t);
    assert Created(Before(t).races, File(t).rows[0], plan.rows[0], map[]) == Man(t, 1, 1);
    OneCreate(Before(t), File(t).rows, plan.rows, map[], TheRun(t).freshIDs);
  }

  lemma {:induction false} MemberIsListed(t: string)
    ensures MembersOf(Before(t).people, t) == map["p" := Man(t, 2, 2)]
    ensures ListsPeople(File(t).existing, Before(t).people) && ListsTeams(File(t).teams, Before(t))
  {
    OneIsListed("p", Man(t, 2, 2));
    assert MembersOf(Before(t).people, t) == map["p" := Man(t, 2, 2)];
    OneTeamIsListed(File(t).teams[0], Before(t));
  }

  lemma {:induction false} RelayIsKept(t: string)
    ensures FormatKept(RELAY) && Barless("r")
    ensures forall race :: race in Before(t).races ==> Barless(race) && FormatKept(Before(t).races[race])
  {
  }

  lemma {:induction false} IdsOfRunAreNew(t: string)
    ensures IdsAreNew([], Before(t).teams.Keys) && IdsAreNew(TheRun(t).freshIDs, Before(t).people.Keys) && BibsFit(File(t).rows)
  {
  }

  lemma {:induction false} RunIsReady(t: string)
    ensures TheRun(t).Ready()
  {
    NoTeamIsPlanned(t);
    MemberIsListed(t);
    RelayIsKept(t);
    IdsOfRunAreNew(t);
    MakesReady(TheRun(t));
  }

  lemma {:induction false} StateIsValid(t: string)
    ensures Valid(Before(t))
  {
    RelayIsKept(t);
    assert |Before(t).people| == 1;
    OneTeamIsValid(Before(t), "r", t);
  }

  lemma {:induction false} TwoMenInAMixedTeam(t: string)
    ensures |MembersOf(After(t).people, t)| == RELAY.Size()
    ensures !MixesWhenFull(After(t).teams[t], RELAY, MembersOf(After(t).people, t))
  {
    var members := MembersOf(After(t).people, t);
    assert members == map["p" := Man(t, 2, 2), "x" := Man(t, 1, 1)];
    assert members.Keys == {"p", "x"} && |members| == |members.Keys|;
  }

  /** The import succeeds and leaves a mixed team full of men; its size is kept. */
  lemma {:induction false} RejectedMemberUnmixesTeam(t: string)
    ensures Valid(Before(t)) && TheRun(t).Ready() && TheRun(t).Outcome() == Ok(After(t))
    ensures var team, members := After(t).teams[t], MembersOf(After(t).people, t);
            |members| == RELAY.Size() && team.category == MixedTeam && !MixesWhenFull(team, RELAY, members)
    ensures !NoMemberRejected(Before(t), File(t).rows, PlanOf(File(t)))
  {
    StateIsValid(t);
    RunIsReady(t);
    TwoMenInAMixedTeam(t);
    RowIsPlanned(t, 0);
    RowIsPlanned(t, 1);
    NoTeamIsPlanned(t);
    WritesOfFile(t, PlanOf(File(t)));
    assert ReregistersOwnMember(Before(t), File(t).rows[1], PlanOf(File(t)).rows[1]);
  }
}
