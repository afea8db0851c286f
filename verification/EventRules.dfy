/** Every use case keeps the team rules and the unique keys. */
module EventRules {
  import opened Wrappers
  import opened Registration
  import opened InputRules
  import opened TeamRules
  import opened Columns
  import opened Text
  import opened EventState
  import opened ImportApply
  import opened EventCases

  // ---- one person joins

  /** A team the person may join is fine with the person in it. */
  lemma {:induction false} JoinKeepsTeam(team: Team, race: RaceFormat, others: map<string, Participant>, id: string, p: Participant)
    requires id !in others && TeamFine(team, race, others)
    requires race.IsTeam() && race.Size() >= 2 && MemberFits(team, race, p)
    requires !LegHeld(others, p.legOrder) && |others| + 1 <= race.Size()
    requires GendersFit(team.category, race.Size(), others, Some(p.gender))
    ensures TeamFine(team, race, others[id := p])
  {
    var members := others[id := p];
    assert |members| == |others| + 1;
    forall q | q in members
      ensures MemberSuits(team, race, members[q])
    {
      if q != id {
        assert others != map[];
      }
    }
    JoinKeepsLegs(team, race, others, id, p);
    HasGenderGrows(others, id, p);
  }

  lemma {:induction false} JoinKeepsLegs(team: Team, race: RaceFormat, others: map<string, Participant>, id: string, p: Participant)
    requires id !in others && TeamFine(team, race, others) && !LegHeld(others, p.legOrder)
    ensures LegsDiffer(others[id := p])
  {
    var members := others[id := p];
    forall q1, q2 | q1 in members && q2 in members && q1 != q2 && members[q1].legOrder.Some?
      ensures members[q1].legOrder != members[q2].legOrder
    {
      if q1 != id && q2 != id {
        assert q1 in others && q2 in others;
      }
    }
  }

  /** And the check turns nobody away without need: a fine team would not have
      been refused. */
  lemma {:induction false} FineTeamIsJoinable(team: Team, race: RaceFormat, others: map<string, Participant>, id: string, p: Participant)
    requires id !in others && TeamFine(team, race, others[id := p])
    ensures race.IsTeam() && MemberFits(team, race, p)
    ensures !LegHeld(others, p.legOrder) && |others| + 1 <= race.Size()
    ensures GendersFit(team.category, race.Size(), others, Some(p.gender))
  {
    var members := others[id := p];
    assert |members| == |others| + 1;
    assert id in members && MemberSuits(team, race, members[id]);
    forall q | q in others
      ensures q in members && members[q] == others[q] && MemberSuits(team, race, others[q])
    {
      assert q in members;
    }
    forall g | HasGender(members, g) && p.gender != g
      ensures HasGender(others, g)
    {
      var q :| q in members && members[q].gender == g;
      assert q in others;
    }
  }

  /** The check lets exactly those in whom the team can take: the members'
      rules hold with the new person among them. */
  lemma {:induction false} JoinIsExact(s: State, id: string, raceID: string, input: Input)
    requires Valid(s) && raceID in s.races && Validate(input, s.races[raceID]).None? && input.teamID.Some?
    ensures var t := input.teamID.value;
            JoinFailure(s, raceID, input, Some(id)).None? <==>
              && t in s.teams && s.teams[t].raceID == raceID
              && TeamFine(s.teams[t], s.races[raceID], MembersOf(s.people[id := PersonOf(raceID, input)], t))
  {
    var t, race, p := input.teamID.value, s.races[raceID], PersonOf(raceID, input);
    ValidateDecides(input, race);
    if t in s.teams && s.teams[t].raceID == raceID {
      TeamWithPerson(s, id, p, t);
      var others := OtherMembers(s, t, Some(id));
      if JoinFailure(s, raceID, input, Some(id)).None? {
        JoinKeepsTeam(s.teams[t], race, others, id, p);
      }
      if TeamFine(s.teams[t], race, others[id := p]) {
        FineTeamIsJoinable(s.teams[t], race, others, id, p);
      }
    }
  }

  /** The others are a fine team, and with the person they are the team after the write. */
  lemma {:induction false} TeamWithPerson(s: State, id: string, p: Participant, t: string)
    requires Valid(s) && t in s.teams && p.teamID == Some(t)
    ensures TeamFine(s.teams[t], s.races[s.teams[t].raceID], OtherMembers(s, t, Some(id)))
    ensures MembersOf(s.people[id := p], t) == OtherMembers(s, t, Some(id))[id := p]
  {
    MembersAfterPut(s.people, id, p, t);
    assert OtherMembers(s, t, Some(id)) == map q | q in MembersOf(s.people, t) && q != id :: s.people[q];
    LeavingKeepsTeam(s.teams[t], s.races[s.teams[t].raceID], MembersOf(s.people, t), OtherMembers(s, t, Some(id)));
  }

  /** The part of a member's record the field rules look at. */
  predicate MemberFits(team: Team, race: RaceFormat, p: Participant) {
    && p.raceID == team.raceID
    && (if race.IsRelay() then p.legOrder.Some? && 1 <= p.legOrder.value <= race.Size() else p.legOrder.None?)
  }

  lemma {:induction false} HasGenderGrows(others: map<string, Participant>, id: string, p: Participant)
    requires id !in others
    ensures forall g :: HasGender(others, g) || p.gender == g ==> HasGender(others[id := p], g)
  {
    var members := others[id := p];
    forall g | HasGender(others, g) || p.gender == g
      ensures HasGender(members, g)
    {
      if p.gender == g {
        assert members[id].gender == g;
      } else {
        var q :| q in others && others[q].gender == g;
        assert members[q].gender == g;
      }
    }
  }

  /** The members of a team after one person's record is written. */
  lemma MembersAfterPut(people: map<string, Participant>, id: string, p: Participant, t: string)
    ensures var others := map q | q in MembersOf(people, t) && q != id :: people[q];
            MembersOf(people[id := p], t) == if p.teamID == Some(t) then others[id := p] else others
  {
  }

  /** The written person's team, if any, takes it. */
  ghost predicate Welcome(s: State, id: string, p: Participant) {
    p.teamID.Some? ==>
      var t := p.teamID.value;
      && t in s.teams && s.teams[t].raceID in s.races
      && var race := s.races[s.teams[t].raceID];
         var others := OtherMembers(s, t, Some(id));
         && race.IsTeam() && race.Size() >= 2
         && MemberFits(s.teams[t], race, p)
         && !LegHeld(others, p.legOrder) && |others| + 1 <= race.Size()
         && GendersFit(s.teams[t].category, race.Size(), others, Some(p.gender))
  }

  lemma {:induction false} PutKeepsTeam(s: State, id: string, p: Participant, t: string)
    requires t in s.teams && s.teams[t].raceID in s.races
    requires TeamFine(s.teams[t], s.races[s.teams[t].raceID], MembersOf(s.people, t))
    requires Welcome(s, id, p)
    ensures TeamFine(s.teams[t], s.races[s.teams[t].raceID], MembersOf(s.people[id := p], t))
  {
    var team, race := s.teams[t], s.races[s.teams[t].raceID];
    var others := OtherMembers(s, t, Some(id));
    MembersAfterPut(s.people, id, p, t);
    assert others == map q | q in MembersOf(s.people, t) && q != id :: s.people[q];
    LeavingKeepsTeam(team, race, MembersOf(s.people, t), others);
    if p.teamID == Some(t) {
      JoinKeepsTeam(team, race, others, id, p);
    }
  }

  lemma {:induction false} PutPersonKeepsRules(s: State, id: string, p: Participant)
    requires Valid(s) && p.raceID in s.races && Welcome(s, id, p) && PutPerson(s, id, p).Ok?
    ensures Valid(PutPerson(s, id, p).value)
  {
    var s' := PutPerson(s, id, p).value;
    PutPersonKeepsKeys(s, id, p);
    forall t | t in s'.teams
      ensures TeamFine(s'.teams[t], s'.races[s'.teams[t].raceID], MembersOf(s'.people, t))
    {
      PutKeepsTeam(s, id, p, t);
    }
  }

  /** A written input passed the rules, so its team takes the person. */
  lemma {:induction false} PassedIsWelcome(s: State, id: string, raceID: string, input: Input, bad: string, lenient: bool, exclude: Option<string>)
    requires Valid(s)
    requires InputFailure(s, raceID, input, bad, lenient, exclude).None?
    requires exclude == Some(id) || (exclude == None && id !in s.people)
    ensures raceID in s.races && Welcome(s, id, PersonOf(raceID, input))
  {
    if input.teamID.Some? {
      ValidateDecides(input, s.races[raceID]);
      JoinedIsWelcome(s, id, raceID, input, exclude);
    }
  }

  lemma {:induction false} JoinedIsWelcome(s: State, id: string, raceID: string, input: Input, exclude: Option<string>)
    requires Valid(s) && raceID in s.races && input.teamID.Some? && s.races[raceID].IsTeam()
    requires var race := s.races[raceID];
             if race.IsRelay() then input.legOrder.Some? && 1 <= input.legOrder.value <= race.Size() else input.legOrder.None?
    requires JoinFailure(s, raceID, input, exclude).None?
    requires exclude == Some(id) || (exclude == None && id !in s.people)
    ensures Welcome(s, id, PersonOf(raceID, input))
  {
    SameOtherMembers(s, input.teamID.value, id, exclude);
  }

  /** Somebody not stored yet need not be left out. */
  lemma {:induction false} SameOtherMembers(s: State, t: string, id: string, exclude: Option<string>)
    requires exclude == Some(id) || (exclude == None && id !in s.people)
    ensures OtherMembers(s, t, exclude) == OtherMembers(s, t, Some(id))
  {
  }

  /** What passing the field rules means for a person with a team. */
  lemma ValidateDecides(input: Input, race: RaceFormat)
    requires Validate(input, race).None? && input.teamID.Some?
    ensures race.IsTeam()
    ensures if race.IsRelay() then input.legOrder.Some? && 1 <= input.legOrder.value <= race.Size() else input.legOrder.None?
  {
  }

  lemma {:induction false} CreatePersonKeepsRules(s: State, id: string, raceID: string, supplied: Input)
    requires Valid(s) && id !in s.people && CreatePerson(s, id, raceID, supplied).Ok?
    ensures Valid(CreatePerson(s, id, raceID, supplied).value)
  {
    var (input, bad) := Normalize(supplied);
    PassedIsWelcome(s, id, raceID, input, bad, false, None);
    PutPersonKeepsRules(s, id, PersonOf(raceID, input));
  }

  lemma {:induction false} UpdatePersonKeepsRules(s: State, id: string, patch: Patch)
    requires Valid(s) && UpdatePerson(s, id, patch).Ok?
    ensures Valid(UpdatePerson(s, id, patch).value)
  {
    var p := s.people[id];
    var (input, bad) := Normalize(Patched(p, patch));
    PassedIsWelcome(s, id, RaceAfter(p, patch), input, bad, p.teamID.None?, Some(id));
    PutPersonKeepsRules(s, id, PersonOf(RaceAfter(p, patch), input));
  }

  // ---- what the columns refuse, and who ends up without a team

  /** A new person who passes every rule is refused by the table for its numbers
      exactly when the BIB is above the column's range. */
  lemma {:induction false} CreateOutOfRangeIff(s: State, id: string, raceID: string, supplied: Input)
    requires Valid(s)
    ensures var (input, bad) := Normalize(supplied);
            CreatePerson(s, id, raceID, supplied) == Err(OutOfRange) <==>
              InputFailure(s, raceID, input, bad, false, None).None? && input.bib > MAX_INT4
  {
    var (input, bad) := Normalize(supplied);
    AdmittedOutOfRangeIff(s, id, raceID, input, bad, false, None);
    if InputFailure(s, raceID, input, bad, false, None).None? {
      PassedNumbers(s, raceID, input, bad, false, None);
    }
  }

  /** What is written once the rules are passed is refused for its numbers exactly when
      they do not fit, and no rule says so before. */
  lemma {:induction false} AdmittedOutOfRangeIff(s: State, id: string, raceID: string, input: Input, bad: string, lenient: bool, exclude: Option<string>)
    ensures var failure := InputFailure(s, raceID, input, bad, lenient, exclude);
            (if failure.Some? then Err(failure.value) else PutPerson(s, id, PersonOf(raceID, input))) == Err(OutOfRange) <==>
              failure.None? && !(FitsInt4(input.bib) && FitsInt4IfAny(input.legOrder))
  {
  }

  /** What passed the rules has a positive BIB, and a leg that fits unless the person
      is let off having a team. */
  lemma {:induction false} PassedNumbers(s: State, raceID: string, input: Input, bad: string, lenient: bool, exclude: Option<string>)
    requires Valid(s) && InputFailure(s, raceID, input, bad, lenient, exclude).None?
    ensures raceID in s.races && input.bib > 0
    ensures s.races[raceID].IsTeam() && input.teamID.None? ==> lenient
    ensures !(s.races[raceID].IsTeam() && input.teamID.None?) ==> FitsInt4IfAny(input.legOrder)
  {
    assert FormatKept(s.races[raceID]);
  }

  /** An update that passes every rule is refused by the table for its numbers exactly
      when the BIB is above the column's range, or the person is without a team in a
      team race, where no rule looks at the leg, and the leg is out of range. */
  lemma {:induction false} UpdateOutOfRangeIff(s: State, id: string, patch: Patch)
    requires Valid(s) && id in s.people
    ensures var (input, bad) := Normalize(Patched(s.people[id], patch));
            var raceID := RaceAfter(s.people[id], patch);
            UpdatePerson(s, id, patch) == Err(OutOfRange) <==>
              && InputFailure(s, raceID, input, bad, s.people[id].teamID.None?, Some(id)).None?
              && (input.bib > MAX_INT4
                  || (s.races[raceID].IsTeam() && input.teamID.None? && !FitsInt4IfAny(input.legOrder)))
  {
    var (input, bad) := Normalize(Patched(s.people[id], patch));
    var raceID := RaceAfter(s.people[id], patch);
    AdmittedOutOfRangeIff(s, id, raceID, input, bad, s.people[id].teamID.None?, Some(id));
    if InputFailure(s, raceID, input, bad, s.people[id].teamID.None?, Some(id)).None? {
      PassedNumbers(s, raceID, input, bad, s.people[id].teamID.None?, Some(id));
    }
  }

  /** Whom a successful update leaves in a team race without a team: exactly the people
      without one before it whom the patch gives none, were they in that race all
      along or in an individual one until now. */
  lemma {:induction false} LeftWithoutTeamIff(s: State, id: string, patch: Patch)
    requires UpdatePerson(s, id, patch).Ok?
    ensures var p, p' := s.people[id], UpdatePerson(s, id, patch).value.people[id];
            && p'.raceID == RaceAfter(p, patch) && p'.raceID in s.races
            && (s.races[p'.raceID].IsTeam() && p'.teamID.None? <==>
                  s.races[p'.raceID].IsTeam() && p.teamID.None? && TrimOption(patch.teamID).None?)
  {
  }

  /** A teamless person may move from an individual race into a team race without
      joining a team. */
  lemma {:induction false} MovesInWithoutTeam(s: State, id: string, raceID: string)
    requires Valid(s) && id in s.people && raceID in s.races && s.races[raceID].IsTeam()
    requires s.people[id].teamID.None? && !s.races[s.people[id].raceID].IsTeam()
    requires var p := s.people[id];
             && Normalize(InputOf(p)) == (InputOf(p), "")
             && Validate(InputOf(p), s.races[p.raceID]).None?
    requires Storable(s.people[id])
    ensures var patch := NO_PATCH.(raceID := Some(raceID));
            && UpdatePerson(s, id, patch).Ok?
            && UpdatePerson(s, id, patch).value.people[id] == s.people[id].(raceID := raceID, legOrder := None)
  {
    var p, patch := s.people[id], NO_PATCH.(raceID := Some(raceID));
    assert Patched(p, patch) == InputOf(p).(teamID := None, legOrder := None);
    assert BibFree(s, id, p.bib) && RefFree(s, id, p.refID);
  }

  // ---- an update repeated

  lemma TrimKept(stored: Option<string>, supplied: Option<string>)
    ensures TrimOption(Keep(TrimOption(Keep(stored, supplied)), supplied)) == TrimOption(Keep(stored, supplied))
  {
  }

  /** The blood type of a patch that was recognised is recognised again. */
  lemma {:induction false} BloodKept(stored: Option<string>, supplied: Option<string>)
    requires var blood := TrimOption(Keep(stored, supplied)); blood.Some? ==> NormalizeBloodType(blood.value).Some?
    ensures var blood := TrimOption(Keep(stored, supplied));
            var known := if blood.Some? then NormalizeBloodType(blood.value) else None;
            var again := TrimOption(Keep(known, supplied));
            (if again.Some? then NormalizeBloodType(again.value) else None) == known
            && (again.Some? ==> NormalizeBloodType(again.value).Some?)
  {
    var blood := TrimOption(Keep(stored, supplied));
    if supplied.None? && blood.Some? {
      BloodTypeIsStable(blood.value);
    }
  }

  lemma {:induction false} PatchedDetailsTwice(d: Details, patch: Patch)
    requires NormalizeDetails(PatchedDetails(d, patch)).1 == ""
    ensures var after := NormalizeDetails(PatchedDetails(d, patch)).0;
            NormalizeDetails(PatchedDetails(after, patch)) == (after, "")
  {
    TrimIsIdempotent(Or(patch.firstName, d.firstName));
    TrimKept(d.lastName, patch.lastName);
    TrimKept(d.bibName, patch.bibName);
    TrimKept(d.email, patch.email);
    TrimKept(d.club, patch.club);
    TrimKept(d.emergencyName, patch.emergencyName);
    TrimKept(d.emergencyPhone, patch.emergencyPhone);
    RecognisedBlood(Keep(d.bloodType, patch.bloodType));
    BloodKept(d.bloodType, patch.bloodType);
  }

  /** Patching what a patch left, and cleaning it up, gives the same again. */
  lemma {:induction false} PatchedTwice(p: Participant, patch: Patch)
    requires Normalize(Patched(p, patch)).1 == ""
    ensures var input, raceID := Normalize(Patched(p, patch)).0, RaceAfter(p, patch);
            var after := PersonOf(raceID, input);
            RaceAfter(after, patch) == raceID && Normalize(Patched(after, patch)) == (input, "")
  {
    PatchedDetailsTwice(p.details, patch);
    TrimKept(p.refID, patch.refID);
    TrimKept(if patch.raceID.Some? && patch.raceID.value != p.raceID then None else p.teamID, patch.teamID);
  }

  /** An unrecognised blood type is never blank. */
  lemma RecognisedBlood(supplied: Option<string>)
    ensures var blood := TrimOption(supplied); blood.Some? ==> blood.value != ""
  {
  }

  /** What passed the rules passes them again once it is written. */
  lemma {:induction false} PassesAgain(s: State, s': State, id: string, raceID: string, input: Input, lenient: bool)
    requires s'.races == s.races && s'.teams == s.teams
    requires id in s.people && s'.people == s.people[id := PersonOf(raceID, input)]
    requires InputFailure(s, raceID, input, "", lenient, Some(id)).None?
    ensures InputFailure(s', raceID, input, "", input.teamID.None?, Some(id)).None?
  {
    SameOthers(s, s', id, raceID, input);
  }

  lemma WriteAgain(s: State, id: string, p: Participant)
    requires PutPerson(s, id, p).Ok?
    ensures PutPerson(PutPerson(s, id, p).value, id, p) == PutPerson(s, id, p)
  {
    var s' := PutPerson(s, id, p).value;
    assert s'.people[id := p] == s'.people;
  }

  /** An update that succeeded can be repeated: it succeeds again and changes
      nothing more. */
  lemma {:induction false} UpdateIsIdempotent(s: State, id: string, patch: Patch)
    requires UpdatePerson(s, id, patch).Ok?
    ensures var s' := UpdatePerson(s, id, patch).value; UpdatePerson(s', id, patch) == Ok(s')
  {
    var p, s' := s.people[id], UpdatePerson(s, id, patch).value;
    var (input, bad) := Normalize(Patched(p, patch));
    var after := PersonOf(RaceAfter(p, patch), input);
    PatchedTwice(p, patch);
    assert s'.people[id] == after;
    PassesAgain(s, s', id, RaceAfter(p, patch), input, p.teamID.None?);
    WriteAgain(s, id, after);
  }

  /** Who else is in a team does not depend on the person's own record. */
  lemma {:induction false} SameOthers(s: State, s': State, id: string, raceID: string, input: Input)
    requires s'.races == s.races && s'.teams == s.teams && raceID in s.races
    requires id in s.people && s'.people == s.people[id := PersonOf(raceID, input)]
    ensures JoinFailure(s', raceID, input, Some(id)) == JoinFailure(s, raceID, input, Some(id))
  {
    if input.teamID.Some? {
      assert OtherMembers(s', input.teamID.value, Some(id)) == OtherMembers(s, input.teamID.value, Some(id));
    }
  }

  // ---- people leave, or change in ways no rule looks at

  /** The same people or fewer, in the same teams or none, with the same keys. */
  ghost predicate Shrinks(before: map<string, Participant>, after: map<string, Participant>) {
    forall q :: q in after ==>
      && q in before
      && after[q].bib == before[q].bib && after[q].refID == before[q].refID
      && after[q].raceID == before[q].raceID && after[q].gender == before[q].gender
      && (after[q].teamID.None? || (after[q].teamID == before[q].teamID && after[q].legOrder == before[q].legOrder))
  }

  /** Rules look at neither the details nor the ref_id. */
  lemma {:induction false} SameRoleKeepsTeam(team: Team, race: RaceFormat, before: map<string, Participant>, after: map<string, Participant>)
    requires TeamFine(team, race, before)
    requires after.Keys == before.Keys
    requires forall q :: q in after ==> after[q].raceID == before[q].raceID && after[q].gender == before[q].gender && after[q].legOrder == before[q].legOrder
    ensures TeamFine(team, race, after)
  {
    SubmapSize(after, before);
    SubmapSize(before, after);
    if after != map[] {
      var q :| q in after;
      assert q in before;
    }
    forall g | HasGender(before, g)
      ensures HasGender(after, g)
    {
      var q :| q in before && before[q].gender == g;
      assert after[q].gender == g;
    }
  }

  lemma {:induction false} ShrinkKeepsTeam(team: Team, race: RaceFormat, before: map<string, Participant>, after: map<string, Participant>, t: string)
    requires TeamFine(team, race, MembersOf(before, t)) && Shrinks(before, after)
    ensures TeamFine(team, race, MembersOf(after, t))
  {
    var fewer := map q | q in MembersOf(before, t) && q in MembersOf(after, t) :: before[q];
    LeavingKeepsTeam(team, race, MembersOf(before, t), fewer);
    SameRoleKeepsTeam(team, race, fewer, MembersOf(after, t));
  }

  lemma {:induction false} ShrinkKeepsKeys(s: State, after: map<string, Participant>)
    requires DistinctKeys(s) && Shrinks(s.people, after)
    ensures DistinctBibs(s.(people := after)) && DistinctRefs(s.(people := after))
  {
    forall q | q in after
      ensures BibFree(s.(people := after), q, after[q].bib)
      ensures RefFree(s.(people := after), q, after[q].refID)
    {
      assert BibFree(s, q, s.people[q].bib) && RefFree(s, q, s.people[q].refID);
    }
  }

  /** A valid state stays valid when people leave or change harmlessly and
      teams go that nobody refers to. */
  lemma {:induction false} ShrinkKeepsRules(s: State, s': State)
    requires Valid(s) && Shrinks(s.people, s'.people)
    requires forall r :: r in s'.races ==> r in s.races && s'.races[r] == s.races[r]
    requires forall t :: t in s'.teams ==> t in s.teams && s'.teams[t] == s.teams[t] && s'.teams[t].raceID in s'.races
    requires forall q :: q in s'.people ==> s'.people[q].raceID in s'.races && (s'.people[q].teamID.Some? ==> s'.people[q].teamID.value in s'.teams)
    ensures Valid(s')
  {
    ShrinkKeepsKeys(s, s'.people);
    forall q | q in s'.people
      ensures BibFree(s', q, s'.people[q].bib) && RefFree(s', q, s'.people[q].refID)
    {
      assert BibFree(s.(people := s'.people), q, s'.people[q].bib) && RefFree(s.(people := s'.people), q, s'.people[q].refID);
    }
    forall t | t in s'.teams
      ensures NameFree(s', t, s'.teams[t].raceID, s'.teams[t].name)
      ensures TeamFine(s'.teams[t], s'.races[s'.teams[t].raceID], MembersOf(s'.people, t))
    {
      assert NameFree(s, t, s.teams[t].raceID, s.teams[t].name);
      ShrinkKeepsTeam(s.teams[t], s.races[s.teams[t].raceID], s.people, s'.people, t);
    }
  }

  lemma {:induction false} DeletePeopleKeepsRules(s: State, selected: set<string>)
    requires Valid(s)
    ensures Valid(DeletePeople(s, selected))
  {
    ShrinkKeepsRules(s, DeletePeople(s, selected));
  }

  lemma {:induction false} StatusIsHarmless(s: State, selected: set<string>, status: Status, s': State)
    requires SetStatus(s, selected, status) == Ok(s')
    ensures Shrinks(s.people, s'.people) && s'.races == s.races && s'.teams == s.teams
  {
  }

  lemma {:induction false} SetStatusKeepsRules(s: State, selected: set<string>, status: Status)
    requires Valid(s) && SetStatus(s, selected, status).Ok?
    ensures Valid(SetStatus(s, selected, status).value)
  {
    var s' := SetStatus(s, selected, status).value;
    StatusIsHarmless(s, selected, status, s');
    ShrinkKeepsRules(s, s');
  }

  lemma {:induction false} DropTeamKeepsRules(s: State, people: map<string, Participant>, id: string)
    requires Valid(s) && (people == s.people || people == Detach(s.people, id))
    ensures Valid(DropTeam(s.(people := people), id))
  {
    var s' := DropTeam(s.(people := people), id);
    assert Shrinks(s.people, s'.people);
    ShrinkKeepsRules(s, s');
  }

  lemma {:induction false} DeleteTeamKeepsRules(s: State, id: string, withMembers: bool)
    requires Valid(s) && DeleteTeam(s, id, withMembers).Ok?
    ensures Valid(DeleteTeam(s, id, withMembers).value)
  {
    if withMembers {
      DropTeamKeepsRules(s, s.people, id);
    } else {
      DropTeamKeepsRules(s, Detach(s.people, id), id);
    }
  }

  /** Keeping the members really keeps them: everybody stays registered, and
      only the deleted team's members lose their team and leg. */
  lemma KeptMembersStay(s: State, id: string)
    requires id in s.teams
    ensures var s' := DeleteTeam(s, id, false).value;
            && s'.people.Keys == s.people.Keys
            && (forall q :: q in s.people ==>
                  s'.people[q] == if s.people[q].teamID == Some(id) then s.people[q].(teamID := None, legOrder := None) else s.people[q])
    ensures var s' := DeleteTeam(s, id, true).value;
            forall q :: q in s'.people <==> q in s.people && s.people[q].teamID != Some(id)
  {
  }

  lemma {:induction false} DeleteRaceKeepsRules(s: State, id: string)
    requires Valid(s) && DeleteRace(s, id).Ok?
    ensures Valid(DeleteRace(s, id).value)
  {
    ShrinkKeepsRules(s, DeleteRace(s, id).value);
  }

  /** The cascade takes exactly the people registered in the race: a team of
      another race has no member of this one. */
  lemma {:induction false} DeletedRaceTakesItsOwn(s: State, id: string, q: string)
    requires Valid(s) && id in s.races
    ensures var s' := DeleteRace(s, id).value;
            && (q in s'.people <==> q in s.people && s.people[q].raceID != id)
            && (q in s'.people ==> s'.people[q] == s.people[q])
  {
    if q in s.people && s.people[q].teamID.Some? {
      var t := s.people[q].teamID.value;
      assert q in MembersOf(s.people, t);
      assert TeamFine(s.teams[t], s.races[s.teams[t].raceID], MembersOf(s.people, t));
      assert MemberSuits(s.teams[t], s.races[s.teams[t].raceID], MembersOf(s.people, t)[q]);
    }
  }

  // ---- teams and races change

  lemma {:induction false} CreateTeamKeepsRules(s: State, id: string, raceID: string, name: string, category: Category)
    requires Valid(s) && id !in s.teams && CreateTeam(s, id, raceID, name, category).Ok?
    ensures Valid(CreateTeam(s, id, raceID, name, category).value)
  {
    var s' := CreateTeam(s, id, raceID, name, category).value;
    PutTeamKeepsKeys(s, id, s'.teams[id]);
    NobodyIsIn(s, id);
    forall t | t in s'.teams
      ensures TeamFine(s'.teams[t], s'.races[s'.teams[t].raceID], MembersOf(s'.people, t))
    {
      if t != id {
        assert t in s.teams && s'.teams[t] == s.teams[t];
      }
    }
  }

  /** A team that is not stored has no members. */
  lemma {:induction false} NobodyIsIn(s: State, id: string)
    requires Linked(s) && id !in s.teams
    ensures MembersOf(s.people, id) == map[]
  {
  }

  /** Dropping a team nobody refers to takes that row only. */
  lemma {:induction false} AddedTeamDrops(s: State, id: string, team: Team)
    requires id !in s.teams && forall q :: q in s.people ==> s.people[q].teamID != Some(id)
    ensures Detach(s.people, id) == s.people
    ensures DropTeam(s.(teams := s.teams[id := team]), id) == s
  {
    var s' := DropTeam(s.(teams := s.teams[id := team]), id);
    assert s'.people == s.people;
    assert s'.teams == s.teams;
  }

  /** Deleting a team just created, either way, leaves the tables as they were. */
  lemma {:induction false} CreateTeamUndone(s: State, id: string, raceID: string, name: string, category: Category, withMembers: bool)
    requires Linked(s) && id !in s.teams && CreateTeam(s, id, raceID, name, category).Ok?
    ensures DeleteTeam(CreateTeam(s, id, raceID, name, category).value, id, withMembers) == Ok(s)
  {
    var team := Team(raceID, Trim(name), category);
    AddedTeamDrops(s, id, team);
    var s' := s.(teams := s.teams[id := team]);
    assert CreateTeam(s, id, raceID, name, category).value == s';
    assert s'.(people := Detach(s'.people, id)) == s';
  }

  lemma {:induction false} PutTeamKeepsKeys(s: State, id: string, team: Team)
    requires DistinctKeys(s) && PutTeam(s, id, team).Ok?
    ensures DistinctKeys(PutTeam(s, id, team).value)
  {
    var s' := PutTeam(s, id, team).value;
    forall q | q in s'.people
      ensures BibFree(s', q, s'.people[q].bib) && RefFree(s', q, s'.people[q].refID)
    {
      assert BibFree(s, q, s.people[q].bib) && RefFree(s, q, s.people[q].refID);
    }
    forall t | t in s'.teams
      ensures NameFree(s', t, s'.teams[t].raceID, s'.teams[t].name)
    {
      assert t != id ==> NameFree(s, t, s.teams[t].raceID, s.teams[t].name);
    }
  }

  /** A team whose members suit its new category is fine under it. */
  lemma RecategorisedIsFine(team: Team, race: RaceFormat, members: map<string, Participant>, name: string, category: Category)
    requires TeamFine(team, race, members)
    requires category != team.category ==> GendersFit(category, race.Size(), members, None)
    ensures TeamFine(team.(name := name, category := category), race, members)
  {
  }

  lemma {:induction false} UpdateTeamKeepsRules(s: State, id: string, name: Option<string>, category: Option<Category>)
    requires Valid(s) && UpdateTeam(s, id, name, category).Ok?
    ensures Valid(UpdateTeam(s, id, name, category).value)
  {
    var s' := UpdateTeam(s, id, name, category).value;
    PutTeamKeepsKeys(s, id, s'.teams[id]);
    forall t | t in s'.teams
      ensures TeamFine(s'.teams[t], s'.races[s'.teams[t].raceID], MembersOf(s'.people, t))
    {
      if t == id {
        RecategorisedIsFine(s.teams[id], s.races[s.teams[id].raceID], MembersOf(s.people, id), s'.teams[id].name, s'.teams[id].category);
      }
    }
  }

  lemma {:induction false} CreateRaceKeepsRules(s: State, id: string, format: RaceFormat)
    requires Valid(s) && id !in s.races && CreateRace(s, id, format).Ok?
    ensures Valid(CreateRace(s, id, format).value)
  {
    NormalizeTwice(format);
    ValidIsKept(NormalizeFormat(format));
    RacesKeepRules(s, CreateRace(s, id, format).value.races);
  }

  /** Deleting a race just created leaves the tables as they were. */
  lemma {:induction false} CreateRaceUndone(s: State, id: string, format: RaceFormat)
    requires Linked(s) && id !in s.races && CreateRace(s, id, format).Ok?
    ensures DeleteRace(CreateRace(s, id, format).value, id) == Ok(s)
  {
    var s' := CreateRace(s, id, format).value;
    var gone := DeleteRace(s', id).value;
    assert gone.races == s.races;
    assert gone.teams == s.teams;
    assert gone.people == s.people;
  }

  /** A race is created exactly when its cleaned-up format is valid, the size and
      the laps fit their columns, and the lap rounds to less than 10000 km. */
  lemma {:induction false} CreateRaceSucceedsIff(s: State, id: string, format: RaceFormat)
    ensures var f := NormalizeFormat(format);
            CreateRace(s, id, format).Ok? <==>
              && FormatValid(f) && FitsInt4IfAny(f.teamSize) && FitsInt4IfAny(f.loopTargetLaps)
              && (f.loopLengthKM.Some? ==> f.loopLengthKM.value < 9999.995)
  {
    var f := NormalizeFormat(format);
    if f.loopLengthKM.Some? {
      assert Hundredths(f.loopLengthKM.value) >= HUNDREDTHS_LIMIT <==> f.loopLengthKM.value * 100.0 + 0.5 >= 1000000.0;
    }
  }

  const NO_CHANGE := FormatPatch(None, None, None, None, None, None, None)

  function PatchOf(f: RaceFormat): FormatPatch {
    FormatPatch(Some(f.entry), Some(f.course), f.teamSize, f.loopMode, f.loopLengthKM, f.loopTargetLaps, f.loopTimeLimitMS)
  }

  /** The same format, where later states still hold it. */
  ghost predicate StillHolds(s: State, id: string, format: RaceFormat, later: State) {
    && CreateRace(s, id, format).Ok? && id in later.races
    && later.races[id] == CreateRace(s, id, format).value.races[id]
  }

  /** A stored format is valid, and can be saved again untouched, exactly when the
      lap it was created with is at least five metres. */
  lemma {:induction false} SavedAgainIff(s: State, id: string, format: RaceFormat, later: State)
    requires StillHolds(s, id, format, later)
    ensures FormatValid(later.races[id]) <==> (format.course == Loop ==> format.loopLengthKM.value >= 0.005)
    ensures UpdateRace(later, id, NO_CHANGE) == if FormatValid(later.races[id]) then Ok(later) else Err(Invalid(FormatField))
  {
    var f := NormalizeFormat(format);
    NormalizeTwice(format);
    KeptIsValidIff(f);
    ValidIsKept(f);
    assert later.races[id := later.races[id]] == later.races;
  }

  /** Sending a race the format it was created with goes unnoticed exactly when
      nobody is registered in it or the lap is a whole number of hundredths; in
      the other cases the lock refuses it. */
  lemma {:induction false} SentAgainIff(s: State, id: string, format: RaceFormat, later: State)
    requires StillHolds(s, id, format, later)
    ensures UpdateRace(later, id, PatchOf(format)) ==
            if !HasParticipants(later, id) || (format.course == Loop ==> WholeHundredths(format.loopLengthKM.value)) then Ok(later)
            else Err(FormatLocked)
  {
    var f := NormalizeFormat(format);
    KeptExactlyIff(f);
    SentAgainIsTheSame(format, KeptFormat(f).value);
    assert later.races[id := later.races[id]] == later.races;
  }

  /** Over what was stored of it, a format comes out as it went in. */
  lemma {:induction false} SentAgainIsTheSame(format: RaceFormat, stored: RaceFormat)
    requires FormatValid(NormalizeFormat(format)) && KeptFormat(NormalizeFormat(format)) == Some(stored)
    ensures NormalizeFormat(ApplyFormat(stored, PatchOf(format))) == NormalizeFormat(format)
  {
  }

  const FINE_LAP := RaceFormat(BlankEntry, Loop, None, Some(TargetLaps), Some(1.234), Some(5), None)
  const TINY_LAP := FINE_LAP.(loopLengthKM := Some(0.004))

  /** A lap of 1.234 km is stored as 1.23 km: with somebody registered, the very
      same format sent again is refused as a change. */
  lemma {:induction false} FineLapLocks(s: State, id: string, q: string, p: Participant)
    requires p.raceID == id
    ensures CreateRace(s, id, FINE_LAP).Ok?
    ensures var s' := CreateRace(s, id, FINE_LAP).value; UpdateRace(s'.(people := s'.people[q := p]), id, PatchOf(FINE_LAP)) == Err(FormatLocked)
  {
    CreateRaceSucceedsIff(s, id, FINE_LAP);
    var s' := CreateRace(s, id, FINE_LAP).value;
    var later := s'.(people := s'.people[q := p]);
    assert later.people[q].raceID == id;
    SentAgainIff(s, id, FINE_LAP, later);
    assert (1.234 * 100.0).Floor == 123;
  }

  /** A lap of four metres passes every check and is stored as no lap at all, after
      which not even an empty change is taken. */
  lemma {:induction false} TinyLapSticks(s: State, id: string)
    ensures CreateRace(s, id, TINY_LAP).Ok?
    ensures var s' := CreateRace(s, id, TINY_LAP).value;
            s'.races[id].loopLengthKM == Some(0.0) && UpdateRace(s', id, NO_CHANGE) == Err(Invalid(FormatField))
  {
    CreateRaceSucceedsIff(s, id, TINY_LAP);
    SavedAgainIff(s, id, TINY_LAP, CreateRace(s, id, TINY_LAP).value);
    assert Hundredths(0.004) == 0;
  }

  /** A format changes only where nobody is registered, so no team notices. */
  lemma {:induction false} UpdateRaceKeepsRules(s: State, id: string, patch: FormatPatch)
    requires Valid(s) && UpdateRace(s, id, patch).Ok?
    ensures Valid(UpdateRace(s, id, patch).value)
  {
    var sent := ApplyFormat(s.races[id], patch);
    NormalizeTwice(sent);
    ValidIsKept(NormalizeFormat(sent));
    RacesKeepRules(s, UpdateRace(s, id, patch).value.races);
  }

  lemma {:induction false} RacesKeepRules(s: State, races: map<string, RaceFormat>)
    requires Valid(s)
    requires forall r :: r in s.races ==> r in races
    requires forall r :: r in races ==> FormatKept(races[r])
    requires forall r :: r in s.races && races[r] != s.races[r] ==> !HasParticipants(s, r)
    ensures Valid(s.(races := races))
  {
    var s' := s.(races := races);
    forall q | q in s'.people
      ensures BibFree(s', q, s'.people[q].bib) && RefFree(s', q, s'.people[q].refID)
    {
      assert BibFree(s, q, s.people[q].bib) && RefFree(s, q, s.people[q].refID);
    }
    forall t | t in s'.teams
      ensures NameFree(s', t, s'.teams[t].raceID, s'.teams[t].name)
      ensures TeamFine(s'.teams[t], s'.races[s'.teams[t].raceID], MembersOf(s'.people, t))
    {
      assert NameFree(s, t, s.teams[t].raceID, s.teams[t].name);
      if MembersOf(s.people, t) != map[] {
        var q :| q in MembersOf(s.people, t);
        assert MemberSuits(s.teams[t], s.races[s.teams[t].raceID], MembersOf(s.people, t)[q]);
        assert HasParticipants(s, s.teams[t].raceID);
      }
    }
  }
}
