/** What each registration use case answers, told from the request and the tables alone:
    when it succeeds, and what every field and row is afterwards. */
module EventAnswers {
  import opened Wrappers
  import opened Text
  import opened Registration
  import opened InputRules
  import opened TeamRules
  import opened Columns
  import opened EventState
  import opened EventCases
  import opened EventRules

  /** What a change says of a field, or what is there when it says nothing. */
  function Sent<T>(sent: Option<T>, kept: Option<T>): Option<T> {
    match sent
    case Some(v) => Some(v)
    case None => kept
  }

  /** A blood type as it is stored: its canonical form, and none for none. */
  ghost predicate StoredBlood(sent: Option<string>, stored: Option<string>) {
    && (Cleaned(sent, None) ==> stored.None?)
    && (forall blood :: Cleaned(sent, Some(blood)) ==> stored.Some? && stored == NormalizeBloodType(blood))
  }

  // ---- people

  /** Nobody and nothing but this person changed. */
  ghost predicate OnlyPerson(s: State, s': State, id: string) {
    && s'.races == s.races && s'.teams == s.teams && id in s'.people
    && (forall q :: q != id ==> (q in s'.people <==> q in s.people))
    && (forall q :: q != id && q in s.people ==> s'.people[q] == s.people[q])
  }

  /** A new person holds what was sent, cleaned up. */
  lemma {:induction false} CreateStores(s: State, id: string, raceID: string, sent: Input)
    requires CreatePerson(s, id, raceID, sent).Ok?
    ensures OnlyPerson(s, CreatePerson(s, id, raceID, sent).value, id)
    ensures var p := CreatePerson(s, id, raceID, sent).value.people[id];
            && p.raceID == raceID && p.bib == sent.bib && p.gender == sent.gender && p.legOrder == sent.legOrder
            && Cleaned(sent.refID, p.refID) && Cleaned(sent.teamID, p.teamID)
            && TrimmedTo(sent.details.firstName, p.details.firstName)
            && Cleaned(sent.details.lastName, p.details.lastName) && Cleaned(sent.details.bibName, p.details.bibName)
            && Cleaned(sent.details.email, p.details.email) && Cleaned(sent.details.club, p.details.club)
            && Cleaned(sent.details.emergencyName, p.details.emergencyName)
            && Cleaned(sent.details.emergencyPhone, p.details.emergencyPhone)
            && StoredBlood(sent.details.bloodType, p.details.bloodType)
            && p.details.status == if sent.details.status == BlankStatus then Registered else sent.details.status
  {
    CreateWrites(s, id, raceID, sent);
    NormalizeIsExact(sent);
    SentBloodIsKnown(sent.details.bloodType, sent);
  }

  /** Only the new row is written, with the cleaned-up input. */
  lemma CreateWrites(s: State, id: string, raceID: string, sent: Input)
    requires CreatePerson(s, id, raceID, sent).Ok?
    ensures Normalize(sent).1 == ""
    ensures CreatePerson(s, id, raceID, sent).value == s.(people := s.people[id := PersonOf(raceID, Normalize(sent).0)])
  {
  }

  lemma {:induction false} SentBloodIsKnown(blood: Option<string>, input: Input)
    requires input.details.bloodType == blood && Normalize(input).1 == ""
    ensures StoredBlood(blood, Normalize(input).0.details.bloodType)
  {
    NormalizeIsExact(input);
    forall b | Cleaned(blood, Some(b))
      ensures NormalizeBloodType(b).Some?
    {
      TrimOptionIsExact(blood);
      assert b != "" by {
        if b == "" {
          CleanedIsNotBlank(blood.value);
        }
      }
    }
  }

  lemma {:induction false} CleanedIsNotBlank(s: string)
    requires TrimmedTo(s, "")
    ensures AllSpace(s)
  {
    var left, right :| AllSpace(left) && AllSpace(right) && s == left + "" + right;
  }

  /** An update leaves what it sent, cleaned up, and what it did not send as it was,
      cleaned up too; a move to another race drops the team and the leg it does not send. */
  lemma {:induction false} UpdateStores(s: State, id: string, patch: Patch)
    requires UpdatePerson(s, id, patch).Ok?
    ensures id in s.people && OnlyPerson(s, UpdatePerson(s, id, patch).value, id)
    ensures var p, p' := s.people[id], UpdatePerson(s, id, patch).value.people[id];
            var moves := patch.raceID.Some? && patch.raceID.value != p.raceID;
            && p'.raceID == (if patch.raceID.Some? then patch.raceID.value else p.raceID)
            && p'.bib == (if patch.bib.Some? then patch.bib.value else p.bib)
            && p'.gender == (if patch.gender.Some? then patch.gender.value else p.gender)
            && Cleaned(Sent(patch.refID, p.refID), p'.refID)
            && Cleaned(Sent(patch.teamID, if moves then None else p.teamID), p'.teamID)
            && (patch.legOrder == Some(0) ==> p'.legOrder.None?)
            && (patch.legOrder != Some(0) ==> p'.legOrder == Sent(patch.legOrder, if moves then None else p.legOrder))
    ensures var p, d' := s.people[id], UpdatePerson(s, id, patch).value.people[id].details;
            && TrimmedTo(if patch.firstName.Some? then patch.firstName.value else p.details.firstName, d'.firstName)
            && Cleaned(Sent(patch.lastName, p.details.lastName), d'.lastName)
            && Cleaned(Sent(patch.bibName, p.details.bibName), d'.bibName)
            && Cleaned(Sent(patch.email, p.details.email), d'.email)
            && Cleaned(Sent(patch.club, p.details.club), d'.club)
            && Cleaned(Sent(patch.emergencyName, p.details.emergencyName), d'.emergencyName)
            && Cleaned(Sent(patch.emergencyPhone, p.details.emergencyPhone), d'.emergencyPhone)
            && StoredBlood(Sent(patch.bloodType, p.details.bloodType), d'.bloodType)
            && var status := if patch.status.Some? then patch.status.value else p.details.status;
               d'.status == if status == BlankStatus then Registered else status
  {
    UpdateWrites(s, id, patch);
    var merged := Patched(s.people[id], patch);
    PatchedIsSent(s.people[id], patch);
    NormalizeIsExact(merged);
    SentBloodIsKnown(merged.details.bloodType, merged);
  }

  /** Only the person's row is written, with the cleaned-up input. */
  lemma UpdateWrites(s: State, id: string, patch: Patch)
    requires UpdatePerson(s, id, patch).Ok?
    ensures id in s.people && Normalize(Patched(s.people[id], patch)).1 == ""
    ensures var raceID := if patch.raceID.Some? then patch.raceID.value else s.people[id].raceID;
            UpdatePerson(s, id, patch).value == s.(people := s.people[id := PersonOf(raceID, Normalize(Patched(s.people[id], patch)).0)])
  {
  }

  /** Everybody else in the team the input names. */
  function Mates(s: State, input: Input, exclude: Option<string>): set<string> {
    set q | q in s.people && s.people[q].teamID.Some? && s.people[q].teamID == input.teamID && Some(q) != exclude
  }

  /** Why a team does not take somebody: it is none of the race, a mate has the leg, it is
      full, or the genders would break its category; in that order. */
  lemma {:induction false} JoinAnswers(s: State, raceID: string, input: Input, exclude: Option<string>)
    requires raceID in s.races && input.teamID.Some?
    ensures var t, size, mates := input.teamID.value, s.races[raceID].Size(), Mates(s, input, exclude);
            var failure := JoinFailure(s, raceID, input, exclude);
            var wrong := t !in s.teams || s.teams[t].raceID != raceID;
            var held := input.legOrder.Some? && exists q :: q in mates && s.people[q].legOrder == input.legOrder;
            var full := size > 0 && |mates| + 1 > size;
            && (failure == Some(Invalid(TeamIDField)) <==> wrong)
            && (failure == Some(LegTaken) <==> !wrong && held)
            && (failure == Some(TeamFull) <==> !wrong && !held && full)
            && (failure == Some(Invalid(GenderField)) <==> !wrong && !held && !full && Unsuited(s, input, mates, s.teams[t].category, size))
            && (failure.None? <==> !wrong && !held && !full && !Unsuited(s, input, mates, s.teams[t].category, size))
  {
    var others := OtherMembers(s, input.teamID.value, exclude);
    assert others.Keys == Mates(s, input, exclude);
    assert |others| == |others.Keys|;
    GendersOfOthers(s, input, exclude, others, Male);
    GendersOfOthers(s, input, exclude, others, Female);
  }

  lemma {:induction false} GendersOfOthers(s: State, input: Input, exclude: Option<string>, others: map<string, Participant>, g: Gender)
    requires input.teamID.Some? && others == OtherMembers(s, input.teamID.value, exclude)
    ensures HasGender(others, g) <==> exists q :: q in Mates(s, input, exclude) && s.people[q].gender == g
  {
    if q :| q in Mates(s, input, exclude) && s.people[q].gender == g {
      assert q in others && others[q].gender == g;
    }
    if HasGender(others, g) {
      var q :| q in others && others[q].gender == g;
      assert q in Mates(s, input, exclude);
    }
  }

  /** With the newcomer the team would hold somebody its category does not, or be mixed
      and full without both genders. */
  ghost predicate Unsuited(s: State, input: Input, mates: set<string>, category: Category, size: int)
    requires forall q :: q in mates ==> q in s.people
  {
    || (category == MaleTeam && (input.gender != Male || exists q :: q in mates && s.people[q].gender != Male))
    || (category == FemaleTeam && (input.gender != Female || exists q :: q in mates && s.people[q].gender != Female))
    || (category == MixedTeam && size > 0 && |mates| + 1 >= size
        && !((input.gender == Male || exists q :: q in mates && s.people[q].gender == Male)
             && (input.gender == Female || exists q :: q in mates && s.people[q].gender == Female)))
  }

  /** The rules of the fields, all of them, or all before the team's for somebody without
      a team in a team race who may stay without one. */
  ghost predicate FieldsSuit(input: Input, race: RaceFormat, lenient: bool) {
    || (forall f :: !Breaks(input, race, f))
    || (lenient && race.entry == ByTeam && input.teamID.None? && forall f :: Rank(f) < Rank(TeamIDField) ==> !Breaks(input, race, f))
  }

  /** Nobody else has the person's BIB, ref_id, or leg in the team. */
  ghost predicate KeysAreFree(s: State, id: string, p: Participant) {
    forall q :: q in s.people && q != id ==>
      && s.people[q].bib != p.bib
      && (p.refID.Some? ==> s.people[q].refID != p.refID)
      && (p.teamID.Some? && p.legOrder.Some? ==> !(s.people[q].teamID == p.teamID && s.people[q].legOrder == p.legOrder))
  }

  lemma {:induction false} SuitedFields(input: Input, race: RaceFormat, lenient: bool)
    ensures var broken := Validate(input, race);
            broken.None? || (lenient && race.IsTeam() && input.teamID.None? && broken.value == TeamIDField) <==> FieldsSuit(input, race, lenient)
  {
    ValidateIsExact(input, race);
  }

  lemma {:induction false} InputAnswers(s: State, raceID: string, input: Input, bad: string, lenient: bool, exclude: Option<string>)
    ensures InputFailure(s, raceID, input, bad, lenient, exclude).None? <==>
              bad == "" && raceID in s.races && FieldsSuit(input, s.races[raceID], lenient)
              && (input.teamID.Some? ==> JoinFailure(s, raceID, input, exclude).None?)
  {
    if raceID in s.races {
      SuitedFields(input, s.races[raceID], lenient);
    }
  }

  lemma {:induction false} PutAnswers(s: State, id: string, p: Participant)
    ensures PutPerson(s, id, p).Ok? <==> FitsInt4(p.bib) && FitsInt4IfAny(p.legOrder) && KeysAreFree(s, id, p)
  {
  }

  /** What is said to an input that is not taken: the first thing wrong with it, in the
      order blood type, race, fields, team. */
  lemma {:induction false} RefusalIsFirst(s: State, raceID: string, input: Input, bad: string, lenient: bool, exclude: Option<string>)
    ensures var failure := InputFailure(s, raceID, input, bad, lenient, exclude);
            && (bad != "" ==> failure == Some(Invalid(BloodTypeField)))
            && (bad == "" && raceID !in s.races ==> failure == Some(Invalid(RaceField)))
            && (bad == "" && raceID in s.races && !FieldsSuit(input, s.races[raceID], lenient) ==>
                  && failure.Some? && failure.value.Invalid? && Breaks(input, s.races[raceID], failure.value.field)
                  && forall f :: Rank(f) < Rank(failure.value.field) ==> !Breaks(input, s.races[raceID], f))
            && (bad == "" && raceID in s.races && FieldsSuit(input, s.races[raceID], lenient) ==>
                  failure == if input.teamID.Some? then JoinFailure(s, raceID, input, exclude) else None)
  {
    if raceID in s.races {
      SuitedFields(input, s.races[raceID], lenient);
      ValidateIsExact(input, s.races[raceID]);
    }
  }

  /** And to one that the table does not take: a number that does not fit, or the BIB,
      ref_id or leg somebody else has, in that order. */
  lemma {:induction false} TableRefuses(s: State, id: string, p: Participant)
    requires PutPerson(s, id, p).Err?
    ensures var others, e := s.people.Keys - {id}, PutPerson(s, id, p).error;
            var fits := FitsInt4(p.bib) && FitsInt4IfAny(p.legOrder);
            var bib := exists q :: q in others && s.people[q].bib == p.bib;
            var ref := p.refID.Some? && exists q :: q in others && s.people[q].refID == p.refID;
            e == if !fits then OutOfRange else if bib then BibTaken else if ref then RefTaken else LegTaken
  {
  }

  /** Somebody new is registered if and only if the blood type is known, the race is one of
      the event, the cleaned-up fields suit it, the team takes them, and the table does. */
  lemma {:induction false} CreateSucceedsIff(s: State, id: string, raceID: string, sent: Input)
    requires id !in s.people
    ensures var (input, bad) := Normalize(sent);
            CreatePerson(s, id, raceID, sent).Ok? <==>
              && (forall blood :: Cleaned(sent.details.bloodType, Some(blood)) ==> NormalizeBloodType(blood).Some?)
              && raceID in s.races && (forall f :: !Breaks(input, s.races[raceID], f))
              && (input.teamID.Some? ==> JoinFailure(s, raceID, input, None).None?)
              && FitsInt4(input.bib) && FitsInt4IfAny(input.legOrder) && KeysAreFree(s, id, PersonOf(raceID, input))
  {
    var (input, bad) := Normalize(sent);
    KnownBlood(sent);
    InputAnswers(s, raceID, input, bad, false, None);
    PutAnswers(s, id, PersonOf(raceID, input));
  }

  lemma {:induction false} KnownBlood(sent: Input)
    ensures Normalize(sent).1 == "" <==> forall blood :: Cleaned(sent.details.bloodType, Some(blood)) ==> NormalizeBloodType(blood).Some?
  {
    NormalizeIsExact(sent);
    TrimOptionIsExact(sent.details.bloodType);
    var blood := TrimOption(sent.details.bloodType);
    if Normalize(sent).1 == "" {
      SentBloodIsKnown(sent.details.bloodType, sent);
    } else {
      assert Cleaned(sent.details.bloodType, Some(blood.value));
    }
  }

  /** What an update is judged on: each field as sent, or as it is. */
  lemma {:induction false} PatchedIsSent(p: Participant, patch: Patch)
    ensures var merged, moves := Patched(p, patch), patch.raceID.Some? && patch.raceID.value != p.raceID;
            && merged.bib == (if patch.bib.Some? then patch.bib.value else p.bib)
            && merged.gender == (if patch.gender.Some? then patch.gender.value else p.gender)
            && merged.refID == Sent(patch.refID, p.refID)
            && merged.teamID == Sent(patch.teamID, if moves then None else p.teamID)
            && merged.legOrder == (if patch.legOrder == Some(0) then None else Sent(patch.legOrder, if moves then None else p.legOrder))
    ensures var d, d' := p.details, Patched(p, patch).details;
            && d'.firstName == (if patch.firstName.Some? then patch.firstName.value else d.firstName)
            && d'.status == (if patch.status.Some? then patch.status.value else d.status)
            && d'.lastName == Sent(patch.lastName, d.lastName) && d'.bibName == Sent(patch.bibName, d.bibName)
            && d'.email == Sent(patch.email, d.email) && d'.club == Sent(patch.club, d.club)
            && d'.emergencyName == Sent(patch.emergencyName, d.emergencyName)
            && d'.emergencyPhone == Sent(patch.emergencyPhone, d.emergencyPhone)
            && d'.bloodType == Sent(patch.bloodType, d.bloodType)
  {
  }

  /** An update succeeds if and only if the person is there and what comes of them would
      pass as a new person's, their own row aside; somebody who had no team may stay
      without one, and then nobody looks at the leg. */
  lemma {:induction false} UpdateSucceedsIff(s: State, id: string, patch: Patch)
    requires id in s.people
    ensures var p := s.people[id];
            var merged, raceID := Patched(p, patch), if patch.raceID.Some? then patch.raceID.value else p.raceID;
            var input := Normalize(merged).0;
            UpdatePerson(s, id, patch).Ok? <==>
              && (forall blood :: Cleaned(merged.details.bloodType, Some(blood)) ==> NormalizeBloodType(blood).Some?)
              && raceID in s.races && FieldsSuit(input, s.races[raceID], p.teamID.None?)
              && (input.teamID.Some? ==> JoinFailure(s, raceID, input, Some(id)).None?)
              && FitsInt4(input.bib) && FitsInt4IfAny(input.legOrder) && KeysAreFree(s, id, PersonOf(raceID, input))
  {
    var p := s.people[id];
    var (input, bad) := Normalize(Patched(p, patch));
    KnownBlood(Patched(p, patch));
    InputAnswers(s, RaceAfter(p, patch), input, bad, p.teamID.None?, Some(id));
    PutAnswers(s, id, PersonOf(RaceAfter(p, patch), input));
  }

  /** Deleting a selection takes the selected people and changes nothing else. */
  lemma {:induction false} DeleteTakesSelected(s: State, selected: set<string>)
    ensures var s' := DeletePeople(s, selected);
            && s'.races == s.races && s'.teams == s.teams
            && forall q :: (q in s'.people <==> q in s.people && q !in selected) && (q in s'.people ==> s'.people[q] == s.people[q])
  {
  }

  /** The selected people get the status, and it is registered or did-not-start. */
  lemma {:induction false} StatusIsSet(s: State, selected: set<string>, status: Status)
    ensures SetStatus(s, selected, status).Ok? <==> status in {Registered, DidNotStart}
    ensures SetStatus(s, selected, status).Ok? ==>
              var s' := SetStatus(s, selected, status).value;
              && s'.races == s.races && s'.teams == s.teams && s'.people.Keys == s.people.Keys
              && forall q :: q in s.people ==>
                   && (q in selected ==> s'.people[q].details.status == status
                                         && s'.people[q].(details := s.people[q].details) == s.people[q]
                                         && s'.people[q].details.(status := s.people[q].details.status) == s.people[q].details)
                   && (q !in selected ==> s'.people[q] == s.people[q])
  {
  }

  // ---- teams

  /** The race has no other team of this name. */
  ghost predicate NameIsFree(s: State, id: string, raceID: string, name: string) {
    forall t :: t in s.teams && t != id && s.teams[t].raceID == raceID ==> s.teams[t].name != name
  }

  /** A team is created if and only if its race is a team race of the event, its name is more
      than white space and free in the race, and its category is one of the three; it is
      stored under the trimmed name, and nothing else changes. */
  lemma {:induction false} TeamIsCreated(s: State, id: string, raceID: string, name: string, category: Category)
    ensures CreateTeam(s, id, raceID, name, category).Ok? <==>
              && raceID in s.races && s.races[raceID].entry == ByTeam && !AllSpace(name)
              && category in {MaleTeam, FemaleTeam, MixedTeam} && NameIsFree(s, id, raceID, Trim(name))
    ensures CreateTeam(s, id, raceID, name, category).Ok? ==>
              var s' := CreateTeam(s, id, raceID, name, category).value;
              && s' == s.(teams := s'.teams) && s'.teams == s.teams[id := Team(raceID, Trim(name), category)]
              && TrimmedTo(name, s'.teams[id].name)
  {
    TrimIsExact(name);
  }

  /** Every member suits the category, as far as the team is complete. */
  ghost predicate MembersSuitCategory(s: State, t: string, category: Category, size: int) {
    var members := MembersOf(s.people, t);
    && (category == MaleTeam ==> forall q :: q in members ==> members[q].gender == Male)
    && (category == FemaleTeam ==> forall q :: q in members ==> members[q].gender == Female)
    && (category == MixedTeam && size > 0 && |members| >= size ==> HasGender(members, Male) && HasGender(members, Female))
  }

  lemma {:induction false} MembersSuitIsExact(s: State, t: string, category: Category, size: int)
    requires category in {MaleTeam, FemaleTeam, MixedTeam}
    ensures GendersFit(category, size, MembersOf(s.people, t), None) <==> MembersSuitCategory(s, t, category, size)
  {
  }

  /** A team takes a new name, a new category, or both, if and only if they would do for a new
      team and, when a category is sent, its members suit it. */
  lemma {:induction false} TeamIsChanged(s: State, id: string, sentName: Option<string>, sentCategory: Option<Category>)
    requires id in s.teams
    ensures var t := s.teams[id];
            var name, category := if sentName.Some? then sentName.value else t.name, if sentCategory.Some? then sentCategory.value else t.category;
            && (UpdateTeam(s, id, sentName, sentCategory).Ok? <==>
                  && t.raceID in s.races && s.races[t.raceID].entry == ByTeam && !AllSpace(name)
                  && category in {MaleTeam, FemaleTeam, MixedTeam} && NameIsFree(s, id, t.raceID, Trim(name))
                  && (sentCategory.Some? ==> MembersSuitCategory(s, id, category, s.races[t.raceID].Size())))
            && (UpdateTeam(s, id, sentName, sentCategory).Ok? ==>
                  UpdateTeam(s, id, sentName, sentCategory).value == s.(teams := s.teams[id := Team(t.raceID, Trim(name), category)]))
  {
    TrimIsExact(if sentName.Some? then sentName.value else s.teams[id].name);
    if sentCategory.Some? && s.teams[id].raceID in s.races && sentCategory.value in {MaleTeam, FemaleTeam, MixedTeam} {
      MembersSuitIsExact(s, id, sentCategory.value, s.races[s.teams[id].raceID].Size());
    }
  }

  /** Deleting a team takes its row; its members go with it, or stay without team and leg. */
  lemma {:induction false} TeamIsDeleted(s: State, id: string, withMembers: bool)
    requires id in s.teams
    ensures DeleteTeam(s, id, withMembers).Ok?
    ensures var s' := DeleteTeam(s, id, withMembers).value;
            && s'.races == s.races
            && (forall t :: (t in s'.teams <==> t in s.teams && t != id) && (t in s'.teams ==> s'.teams[t] == s.teams[t]))
            && (forall q :: q in s'.people <==> q in s.people && (withMembers ==> s.people[q].teamID != Some(id)))
            && (forall q :: q in s'.people ==>
                  s'.people[q] == if s.people[q].teamID == Some(id) then s.people[q].(teamID := None, legOrder := None) else s.people[q])
  {
  }

  // ---- races

  /** What is stored of a format that was sent, setting by setting: blanks filled in, settings
      the format has no use for dropped, the lap rounded to hundredths. */
  ghost predicate StoresFormat(sent: RaceFormat, f: RaceFormat) {
    && f.entry == (if sent.entry == BlankEntry then Individual else sent.entry)
    && f.course == (if sent.course == BlankCourse then Standard else sent.course)
    && f.teamSize == (if sent.entry == ByTeam then sent.teamSize else None)
    && f.loopMode == (if sent.course == Loop then sent.loopMode else None)
    && f.loopTargetLaps == (if sent.course == Loop && sent.loopMode != Some(TimeLimit) then sent.loopTargetLaps else None)
    && f.loopTimeLimitMS == (if sent.course == Loop && sent.loopMode != Some(TargetLaps) then sent.loopTimeLimitMS else None)
    && (sent.course != Loop || sent.loopLengthKM.None? ==> f.loopLengthKM.None?)
    && (sent.course == Loop && sent.loopLengthKM.Some? ==>
          f.loopLengthKM.Some? && sent.loopLengthKM.value - 0.005 <= f.loopLengthKM.value <= sent.loopLengthKM.value + 0.005
          && WholeHundredths(f.loopLengthKM.value))
  }

  lemma {:induction false} FormatIsStored(sent: RaceFormat)
    requires KeptFormat(NormalizeFormat(sent)).Some?
    ensures StoresFormat(sent, KeptFormat(NormalizeFormat(sent)).value)
  {
    NormalizeFormatIsExact(sent);
    if sent.loopLengthKM.Some? {
      HundredthsAreExact(Hundredths(sent.loopLengthKM.value));
    }
  }

  /** A created race holds the format that was sent, as far as the table keeps it. */
  lemma {:induction false} RaceIsCreated(s: State, id: string, sent: RaceFormat)
    requires CreateRace(s, id, sent).Ok?
    ensures var s' := CreateRace(s, id, sent).value;
            && s' == s.(races := s'.races) && id in s'.races && StoresFormat(sent, s'.races[id])
            && forall r :: r != id ==> (r in s'.races <==> r in s.races) && (r in s.races ==> s'.races[r] == s.races[r])
  {
    FormatIsStored(sent);
  }

  /** A changed race holds what was sent over what it held. */
  lemma {:induction false} RaceIsChanged(s: State, id: string, patch: FormatPatch)
    requires UpdateRace(s, id, patch).Ok?
    ensures id in s.races
    ensures var f, s' := s.races[id], UpdateRace(s, id, patch).value;
            var sent := RaceFormat(if patch.entry.Some? then patch.entry.value else f.entry,
                                   if patch.course.Some? then patch.course.value else f.course,
                                   Sent(patch.teamSize, f.teamSize), Sent(patch.loopMode, f.loopMode),
                                   Sent(patch.loopLengthKM, f.loopLengthKM), Sent(patch.loopTargetLaps, f.loopTargetLaps),
                                   Sent(patch.loopTimeLimitMS, f.loopTimeLimitMS));
            && s' == s.(races := s'.races) && id in s'.races && StoresFormat(sent, s'.races[id])
            && forall r :: r != id ==> (r in s'.races <==> r in s.races) && (r in s.races ==> s'.races[r] == s.races[r])
  {
    FormatIsStored(ApplyFormat(s.races[id], patch));
  }

  /** Deleting a race takes the race, its teams, and the people of the race. */
  lemma {:induction false} RaceIsDeleted(s: State, id: string)
    requires Valid(s) && id in s.races
    ensures DeleteRace(s, id).Ok?
    ensures var s' := DeleteRace(s, id).value;
            && (forall r :: (r in s'.races <==> r in s.races && r != id) && (r in s'.races ==> s'.races[r] == s.races[r]))
            && (forall t :: (t in s'.teams <==> t in s.teams && s.teams[t].raceID != id) && (t in s'.teams ==> s'.teams[t] == s.teams[t]))
            && (forall q :: (q in s'.people <==> q in s.people && s.people[q].raceID != id) && (q in s'.people ==> s'.people[q] == s.people[q]))
  {
    forall q
      ensures var s' := DeleteRace(s, id).value;
              (q in s'.people <==> q in s.people && s.people[q].raceID != id) && (q in s'.people ==> s'.people[q] == s.people[q])
    {
      DeletedRaceTakesItsOwn(s, id, q);
    }
  }
}
