/** What it takes to follow a small file through the planner by hand. */
module SmallFiles {
  import opened Wrappers
  import opened Registration
  import opened Columns
  import opened TeamRules
  import opened Text
  import opened ImportPlan
  import opened EventState
  import opened ImportSafety

  /** Somebody whose details do not matter. */
  const RUNNER := Details("Ada", None, None, None, None, None, None, None, Registered)

  /** The one team of these files. */
  function KeyT(): string {
    TeamKey("r", "T")
  }

  // ---- listings

  lemma {:induction false} OneIsListed(a: string, pa: Participant)
    ensures ListsPeople([ViewOf(a, pa)], map[a := pa])
    ensures ListsMembers([MemberView(a, pa)], map[a := pa])
  {
    assert [ViewOf(a, pa)][0] in [ViewOf(a, pa)];
    assert [MemberView(a, pa)][0].id == a;
  }

  lemma {:induction false} OnlyOneIsListed(e: Existing, bib: int)
    ensures LastByBib([e], bib) == if e.bib == bib then Some(e) else None
  {
    assert [e][..0] == [];
  }

  lemma {:induction false} TwoAreListed(a: string, pa: Participant, b: string, pb: Participant)
    requires a != b
    ensures ListsPeople([ViewOf(a, pa), ViewOf(b, pb)], map[a := pa, b := pb])
    ensures ListsMembers([MemberView(a, pa), MemberView(b, pb)], map[a := pa, b := pb])
  {
    var views, members := [ViewOf(a, pa), ViewOf(b, pb)], [MemberView(a, pa), MemberView(b, pb)];
    assert views[0] in views && views[1] in views;
    assert members[0].id == a && members[1].id == b;
  }

  lemma {:induction false} OneTeamIsListed(e: ExistingTeam, s: State)
    requires s.teams.Keys == {e.id} && s.teams[e.id] == Team(e.raceID, e.name, e.category)
    requires ListsMembers(e.members, MembersOf(s.people, e.id))
    ensures ListsTeams([e], s)
  {
    assert [e][0] in [e];
  }

  lemma {:induction false} MakesReady(r: Run)
    requires r.batch.races == r.s.races && forall race :: race in r.s.races ==> Barless(race) && FormatKept(r.s.races[race])
    requires BibsFit(r.batch.rows) && ListsPeople(r.batch.existing, r.s.people) && ListsTeams(r.batch.teams, r.s)
    requires |r.teamIDs| == |PlanOf(r.batch).newTeams| && |r.freshIDs| == |r.batch.rows|
    requires IdsAreNew(r.teamIDs, r.s.teams.Keys) && IdsAreNew(r.freshIDs, r.s.people.Keys)
    ensures r.Ready()
  {
  }

  /** A state whose one team holds everybody and is fine is valid. */
  lemma {:induction false} OneTeamIsValid(s: State, raceID: string, t: string)
    requires s.races.Keys == {raceID} && FormatKept(s.races[raceID])
    requires s.teams.Keys == {t} && s.teams[t].raceID == raceID
    requires forall q :: q in s.people ==> s.people[q].raceID == raceID && s.people[q].teamID == Some(t) && s.people[q].refID.None?
    requires forall p, q :: p in s.people && q in s.people && p != q ==> s.people[p].bib != s.people[q].bib
    requires TeamFine(s.teams[t], s.races[raceID], s.people)
    ensures Valid(s)
  {
    assert MembersOf(s.people, t) == s.people;
  }

  // ---- teams

  lemma {:induction false} StoredTeamForms(d: Draft, key: string)
    requires TeamOf(d, key).Some? && Seated(d, key) != []
    requires Compose(TeamOf(d, key).value.category, SizeOf(d, key), TeamGenders(d, key)) != Clash
    ensures Forms(d, key)
  {
  }

  lemma {:induction false} StoredTeamsAreNotPlanned(d: Draft, keys: seq<string>)
    requires forall i :: 0 <= i < |keys| ==> TeamOf(d, keys[i]).Some?
    ensures TeamsFor(d, keys) == []
  {
    if keys != [] {
      StoredTeamsAreNotPlanned(d, keys[..|keys| - 1]);
    }
  }

  /** When every joining row names a stored team, no team is planned. */
  lemma {:induction false} NoTeamIsNew(batch: PlanInput, key: string)
    requires TeamOf(DraftOf(batch), key).Some?
    requires key == KeyT() && forall i :: 0 <= i < |batch.rows| ==> batch.rows[i].raceID == "r" && batch.rows[i].teamName == "T"
    ensures PlanOf(batch).newTeams == []
  {
    var d := DraftOf(batch);
    KeysAreTheGroups(d, |d.entries|);
    forall i | 0 <= i < |Keys(d)|
      ensures TeamOf(d, Keys(d)[i]).Some?
    {
      assert Keys(d)[i] in Keys(d);
      assert JoinsTeam(d, Group(d, Keys(d)[i])[0], Keys(d)[i]);
    }
    StoredTeamsAreNotPlanned(d, Keys(d));
  }

  // ---- seats

  /** With nobody staying, legs not asked for before and places left, nothing
      keeps a row out. */
  lemma {:induction false} FreeSeat(d: Draft, idx: seq<nat>, size: int, j: nat)
    requires forall k :: 0 <= k < |idx| ==> idx[k] < |d.entries|
    requires j < |idx| && j < size
    requires forall k :: 0 <= k < j ==> d.entries[idx[k]].row.input.legOrder != d.entries[idx[j]].row.input.legOrder
    ensures VerdictsFor(d, idx, [], size)[j] == []
  {
    var leg := d.entries[idx[j]].row.input.legOrder;
    assert leg.Some? ==> !AsksLeg(d, idx[..j], leg.value);
    assert leg.Some? ==> !HoldsLeg([], leg.value);
  }

  /** A row that asks for the leg of the row before it gets no seat. */
  lemma {:induction false} RepeatedLeg(d: Draft, size: int)
    requires |d.entries| == 2 && d.entries[0].row.input.legOrder.Some?
    requires d.entries[1].row.input.legOrder == d.entries[0].row.input.legOrder
    ensures VerdictsFor(d, [0, 1], [], size)[1] != []
  {
    var leg := d.entries[0].row.input.legOrder.value;
    var before: seq<nat> := [0];
    assert [0, 1][..1] == before && before[0] == 0;
    assert AsksLeg(d, before, leg);
  }
}
