/** Who is in a team after an import, read off the plan and the stored table
    alone, and the two head counts that can break a team's rules. */
module ImportCounts {
  import opened Wrappers
  import opened Registration
  import opened EventState
  import opened ImportApply
  import opened ImportTracking

  /** The stored members of a team that no applied row writes. */
  function Remaining(sc: Script, t: string): set<string>
    requires sc.Shaped()
  {
    set q | q in sc.state.people && sc.state.people[q].teamID == Some(t) && sc.LastWriter(|sc.rows|, q).None?
  }

  /** Row k puts its target in the team for good: no later row writes the same person. */
  predicate Arrives(sc: Script, t: string, k: int)
    requires sc.Shaped()
  {
    && sc.AppliesAt(k)
    && TeamIDOf(sc.plans[k], sc.newIDs) == Some(t)
    && sc.LastWriter(|sc.rows|, sc.Target(k)) == Some(k)
  }

  /** The people the rows put in a team for good. */
  function Arrivals(sc: Script, t: string): set<string>
    requires sc.Shaped()
  {
    set k | 0 <= k < |sc.rows| && Arrives(sc, t, k) :: sc.Target(k)
  }

  function Headcount(sc: Script, t: string): nat
    requires sc.Shaped()
  {
    |Remaining(sc, t)| + |Arrivals(sc, t)|
  }

  /** Somebody who remains or arrives has this gender. */
  ghost predicate Shows(sc: Script, t: string, g: Gender)
    requires sc.Shaped()
  {
    || (exists q :: q in Remaining(sc, t) && sc.state.people[q].gender == g)
    || (exists k :: Arrives(sc, t, k) && sc.rows[k].input.gender == g)
  }

  /** The team's head counts allow it: no more people than its size, and both
      genders in a mixed team that is full. */
  ghost predicate HeadsFit(sc: Script, t: string)
    requires sc.Shaped() && t in sc.state.teams && sc.state.teams[t].raceID in sc.state.races
  {
    var team, size, n := sc.state.teams[t], sc.state.races[sc.state.teams[t].raceID].Size(), Headcount(sc, t);
    n > 0 ==>
      && n <= size
      && (team.category == MixedTeam && n >= size ==> Shows(sc, t, Male) && Shows(sc, t, Female))
  }

  ghost predicate CountsFit(sc: Script) {
    && sc.Shaped()
    && forall t :: t in sc.state.teams ==> sc.state.teams[t].raceID in sc.state.races && HeadsFit(sc, t)
  }

  // ---- the members after the last write

  lemma {:induction false} WriterArrives(sc: Script, now: map<string, Participant>, t: string, q: string)
    requires sc.Shaped() && sc.Tracks(|sc.rows|, now) && q in now && now[q].teamID == Some(t)
    requires sc.LastWriter(|sc.rows|, q).Some?
    ensures Arrives(sc, t, sc.LastWriter(|sc.rows|, q).value) && q in Arrivals(sc, t)
  {
    var k := sc.LastWriter(|sc.rows|, q).value;
    assert sc.Writes(k, q) && sc.Carries(now[q], k);
    assert Arrives(sc, t, k);
  }

  lemma {:induction false} ArrivalIsMember(sc: Script, now: map<string, Participant>, t: string, k: int)
    requires sc.Shaped() && sc.Tracks(|sc.rows|, now) && Arrives(sc, t, k)
    ensures sc.Target(k) in MembersOf(now, t) && sc.Carries(now[sc.Target(k)], k)
  {
  }

  lemma {:induction false} MembersAre(sc: Script, now: map<string, Participant>, t: string)
    requires sc.Shaped() && sc.Tracks(|sc.rows|, now)
    ensures MembersOf(now, t).Keys == Remaining(sc, t) + Arrivals(sc, t)
    ensures Remaining(sc, t) !! Arrivals(sc, t)
  {
    forall q | q in MembersOf(now, t)
      ensures q in Remaining(sc, t) + Arrivals(sc, t)
    {
      if sc.LastWriter(|sc.rows|, q).Some? {
        WriterArrives(sc, now, t, q);
      }
    }
    forall q | q in Remaining(sc, t)
      ensures q in MembersOf(now, t)
    {
      assert now[q] == sc.state.people[q];
    }
    forall k | 0 <= k < |sc.rows| && Arrives(sc, t, k)
      ensures sc.Target(k) in MembersOf(now, t) && sc.Target(k) !in Remaining(sc, t)
    {
      ArrivalIsMember(sc, now, t, k);
    }
  }

  /** A team's size after an import, exactly. */
  lemma {:induction false} SizeIsExact(sc: Script, now: map<string, Participant>, t: string)
    requires sc.Shaped() && sc.Tracks(|sc.rows|, now)
    ensures |MembersOf(now, t)| == Headcount(sc, t)
    ensures MembersOf(now, t) != map[] <==> Headcount(sc, t) > 0
  {
    MembersAre(sc, now, t);
    assert |MembersOf(now, t).Keys| == |MembersOf(now, t)|;
  }

  /** Its genders after an import, exactly. */
  lemma {:induction false} GendersAreExact(sc: Script, now: map<string, Participant>, t: string, g: Gender)
    requires sc.Shaped() && sc.Tracks(|sc.rows|, now)
    ensures HasGender(MembersOf(now, t), g) <==> Shows(sc, t, g)
  {
    MembersAre(sc, now, t);
    if HasGender(MembersOf(now, t), g) {
      var q :| q in MembersOf(now, t) && MembersOf(now, t)[q].gender == g;
      if sc.LastWriter(|sc.rows|, q).Some? {
        WriterArrives(sc, now, t, q);
        assert sc.Carries(now[q], sc.LastWriter(|sc.rows|, q).value);
      } else {
        assert q in Remaining(sc, t) && now[q] == sc.state.people[q];
      }
    }
    if q :| q in Remaining(sc, t) && sc.state.people[q].gender == g {
      assert q in MembersOf(now, t) && now[q] == sc.state.people[q];
    }
    if k :| Arrives(sc, t, k) && sc.rows[k].input.gender == g {
      ArrivalIsMember(sc, now, t, k);
      assert MembersOf(now, t)[sc.Target(k)].gender == g;
    }
  }

  /** The head counts fit exactly when the members after the import keep the
      size rule and the rule of a full mixed team. */
  lemma {:induction false} HeadsFitMeans(sc: Script, now: map<string, Participant>, t: string)
    requires sc.Shaped() && sc.Tracks(|sc.rows|, now)
    requires t in sc.state.teams && sc.state.teams[t].raceID in sc.state.races
    ensures var team, race, members := sc.state.teams[t], sc.state.races[sc.state.teams[t].raceID], MembersOf(now, t);
            HeadsFit(sc, t) <==> (members != map[] ==> |members| <= race.Size() && MixesWhenFull(team, race, members))
  {
    SizeIsExact(sc, now, t);
    GendersAreExact(sc, now, t, Male);
    GendersAreExact(sc, now, t, Female);
  }
}
