/** What an import leaves in each field of each person: the last thing the file says of
    it, or what was stored. */
module ImportFields {
  import opened Wrappers
  import opened Registration
  import opened ImportPlan
  import opened EventState
  import opened ImportApply
  import opened ImportTracking
  import opened ImportSafety
  import opened ImportGuarantees
  import opened ImportTeams

  /** The fields a row may leave blank. */
  datatype Blankable = LastName | BibName | Email | Club | EmergencyName | EmergencyPhone | BloodType | RefID

  function Said(details: Details, refID: Option<string>, f: Blankable): Option<string> {
    match f
    case LastName => details.lastName
    case BibName => details.bibName
    case Email => details.email
    case Club => details.club
    case EmergencyName => details.emergencyName
    case EmergencyPhone => details.emergencyPhone
    case BloodType => details.bloodType
    case RefID => refID
  }

  function InRow(row: ImportRow, f: Blankable): Option<string> {
    Said(row.input.details, row.input.refID, f)
  }

  function Stored(p: Participant, f: Blankable): Option<string> {
    Said(p.details, p.refID, f)
  }

  /** v is what the last of the first n rows that is written to q and fills in the field
      says; if none does it is what was stored, nothing for a new person. */
  ghost predicate LastSaid(sc: Script, n: nat, q: string, f: Blankable, v: Option<string>)
    requires sc.Shaped() && n <= |sc.rows|
  {
    || (exists k :: 0 <= k < n && sc.Writes(k, q) && InRow(sc.rows[k], f).Some? && v == InRow(sc.rows[k], f)
                    && forall j :: k < j < n && sc.Writes(j, q) ==> InRow(sc.rows[j], f).None?)
    || ((forall k :: 0 <= k < n && sc.Writes(k, q) ==> InRow(sc.rows[k], f).None?)
        && v == if q in sc.state.people then Stored(sc.state.people[q], f) else None)
  }

  lemma {:induction false} SaidOfOthers(sc: Script, n: nat, q: string, f: Blankable, v: Option<string>)
    requires sc.Shaped() && n < |sc.rows| && !sc.Writes(n, q) && LastSaid(sc, n, q, f, v)
    ensures LastSaid(sc, n + 1, q, f, v)
  {
    if k :| 0 <= k < n && sc.Writes(k, q) && InRow(sc.rows[k], f).Some? && v == InRow(sc.rows[k], f)
            && forall j :: k < j < n && sc.Writes(j, q) ==> InRow(sc.rows[j], f).None? {
      assert forall j :: k < j < n + 1 && sc.Writes(j, q) ==> InRow(sc.rows[j], f).None?;
    }
  }

  lemma {:induction false} SaidNow(sc: Script, n: nat, q: string, f: Blankable, v: Option<string>)
    requires sc.Shaped() && n < |sc.rows| && sc.Writes(n, q) && LastSaid(sc, n, q, f, v)
    ensures LastSaid(sc, n + 1, q, f, if InRow(sc.rows[n], f).Some? then InRow(sc.rows[n], f) else v)
  {
    if InRow(sc.rows[n], f).None? {
      if k :| 0 <= k < n && sc.Writes(k, q) && InRow(sc.rows[k], f).Some? && v == InRow(sc.rows[k], f)
              && forall j :: k < j < n && sc.Writes(j, q) ==> InRow(sc.rows[j], f).None? {
        assert forall j :: k < j < n + 1 && sc.Writes(j, q) ==> InRow(sc.rows[j], f).None?;
      }
    }
  }

  /** Nobody wrote the participant a creating row writes. */
  lemma {:induction false} NewIsUnwritten(sc: Script, n: nat, now: map<string, Participant>)
    requires sc.Claims() && n < |sc.rows| && sc.AppliesAt(n) && sc.plans[n].action == Create && sc.Tracks(n, now)
    ensures sc.Target(n) !in now && sc.Target(n) !in sc.state.people
    ensures forall k :: 0 <= k < n ==> !sc.Writes(k, sc.Target(n))
  {
    forall k | 0 <= k < n
      ensures !sc.Writes(k, sc.Target(n))
    {
      if sc.AppliesAt(k) && sc.plans[k].action == Update {
        assert sc.plans[k].existingID.value in sc.state.people;
      }
    }
    assert sc.LastWriter(n, sc.Target(n)).None?;
  }

  /** What row n leaves in a field of the person it writes. */
  lemma {:induction false} RowSays(sc: Script, n: nat, s: State, f: Blankable)
    requires sc.Claims() && n < |sc.rows| && sc.AppliesAt(n) && sc.Tracks(n, s.people) && s.races == sc.state.races
    requires ApplyRow(s, sc.rows[n], sc.plans[n], sc.newIDs, sc.freshIDs[n]).Ok?
    ensures var s', q := ApplyRow(s, sc.rows[n], sc.plans[n], sc.newIDs, sc.freshIDs[n]).value, sc.Target(n);
            && q in s'.people && (forall p :: p != q ==> (p in s'.people <==> p in s.people))
            && (forall p :: p != q && p in s.people ==> s'.people[p] == s.people[p])
            && Stored(s'.people[q], f) ==
               (if InRow(sc.rows[n], f).Some? then InRow(sc.rows[n], f) else if q in s.people then Stored(s.people[q], f) else None)
            && s'.people[q].details.firstName == sc.rows[n].input.details.firstName
            && s'.people[q].details.status == (if q in s.people then s.people[q].details.status else Registered)
  {
    var row, rp, q := sc.rows[n], sc.plans[n], sc.Target(n);
    if rp.action == Create {
      NewIsUnwritten(sc, n, s.people);
      CreatedSays(s.races, row, rp, sc.newIDs, f);
      PutWrites(s, q, Created(s.races, row, rp, sc.newIDs));
    } else {
      UpdatedSays(s.races, s.people[q], row, rp, sc.newIDs, f);
      PutWrites(s, q, Updated(s.races, s.people[q], row, rp, sc.newIDs));
    }
  }

  lemma CreatedSays(races: map<string, RaceFormat>, row: ImportRow, rp: RowPlan, newIDs: map<string, string>, f: Blankable)
    ensures var p := Created(races, row, rp, newIDs);
            Stored(p, f) == InRow(row, f) && p.details.firstName == row.input.details.firstName && p.details.status == Registered
  {
  }

  lemma UpdatedSays(races: map<string, RaceFormat>, p: Participant, row: ImportRow, rp: RowPlan, newIDs: map<string, string>, f: Blankable)
    ensures var p' := Updated(races, p, row, rp, newIDs);
            && Stored(p', f) == (if InRow(row, f).Some? then InRow(row, f) else Stored(p, f))
            && p'.details.firstName == row.input.details.firstName && p'.details.status == p.details.status
  {
  }

  lemma PutWrites(s: State, q: string, p: Participant)
    requires PutPerson(s, q, p).Ok?
    ensures PutPerson(s, q, p).value.people == s.people[q := p]
  {
  }

  lemma {:induction false} FieldsAfter(sc: Script, n: nat, q: string, f: Blankable)
    requires sc.Claims() && n <= |sc.rows| && DistinctKeys(sc.state) && sc.After(n).Ok? && q in sc.After(n).value.people
    ensures LastSaid(sc, n, q, f, Stored(sc.After(n).value.people[q], f))
    decreases n
  {
    if n > 0 {
      WritesAreTracked(sc, n - 1);
      NextWrite(sc, n - 1);
      var s := sc.After(n - 1).value;
      if q in s.people {
        FieldsAfter(sc, n - 1, q, f);
      }
      FieldStep(sc, n - 1, s, q, f);
    }
  }

  lemma {:induction false} FieldStep(sc: Script, n: nat, s: State, q: string, f: Blankable)
    requires sc.Claims() && n < |sc.rows| && sc.Tracks(n, s.people) && s.races == sc.state.races
    requires ApplyRow(s, sc.rows[n], sc.plans[n], sc.newIDs, sc.freshIDs[n]).Ok?
    requires q in ApplyRow(s, sc.rows[n], sc.plans[n], sc.newIDs, sc.freshIDs[n]).value.people
    requires q in s.people ==> LastSaid(sc, n, q, f, Stored(s.people[q], f))
    ensures LastSaid(sc, n + 1, q, f, Stored(ApplyRow(s, sc.rows[n], sc.plans[n], sc.newIDs, sc.freshIDs[n]).value.people[q], f))
  {
    if sc.AppliesAt(n) {
      RowSays(sc, n, s, f);
    }
    if sc.Writes(n, q) {
      if q in s.people {
        SaidNow(sc, n, q, f, Stored(s.people[q], f));
      } else {
        NotYetThere(sc, n, s.people, q, f);
        SaidNow(sc, n, q, f, None);
      }
    } else {
      SaidOfOthers(sc, n, q, f, Stored(s.people[q], f));
    }
  }

  /** Of somebody who is not in the table yet nothing was said. */
  lemma {:induction false} NotYetThere(sc: Script, n: nat, now: map<string, Participant>, q: string, f: Blankable)
    requires sc.Shaped() && n <= |sc.rows| && sc.Tracks(n, now) && q !in now
    ensures LastSaid(sc, n, q, f, None)
  {
    assert sc.LastWriter(n, q).None?;
  }

  /** After an import, each field a row may leave blank holds what the last row written to
      that person says of it, and what was stored if none does. */
  lemma {:induction false} FieldsAreLastSaid(r: Run, q: string, f: Blankable)
    requires r.Ready() && DistinctKeys(r.s) && r.Outcome().Ok? && q in r.Outcome().value.people
    ensures r.WithTeams().Ok?
    ensures LastSaid(r.RowScript(), |r.batch.rows|, q, f, Stored(r.Outcome().value.people[q], f))
  {
    PlanClaims(r);
    RunTeamsGoIn(r);
    PersonKeysStay(r.s, r.WithTeams().value);
    FieldsAfter(r.RowScript(), |r.batch.rows|, q, f);
  }

  /** The first name is that of the last row written to the person, and the status never
      changes; new people start out registered. */
  ghost predicate NamedBy(sc: Script, n: nat, q: string, p: Participant)
    requires sc.Shaped() && n <= |sc.rows|
  {
    && p.details.status == (if q in sc.state.people then sc.state.people[q].details.status else Registered)
    && match sc.LastWriter(n, q)
       case None => q in sc.state.people && p.details.firstName == sc.state.people[q].details.firstName
       case Some(k) => p.details.firstName == sc.rows[k].input.details.firstName
  }

  lemma {:induction false} NamesAfter(sc: Script, n: nat, q: string)
    requires sc.Claims() && n <= |sc.rows| && DistinctKeys(sc.state) && sc.After(n).Ok? && q in sc.After(n).value.people
    ensures NamedBy(sc, n, q, sc.After(n).value.people[q])
    decreases n
  {
    if n > 0 {
      WritesAreTracked(sc, n - 1);
      NextWrite(sc, n - 1);
      var s := sc.After(n - 1).value;
      if q in s.people {
        NamesAfter(sc, n - 1, q);
      }
      assert sc.After(n) == ApplyRow(s, sc.rows[n - 1], sc.plans[n - 1], sc.newIDs, sc.freshIDs[n - 1]);
      NameStep(sc, n - 1, s, q);
    }
  }

  lemma {:induction false} NameStep(sc: Script, n: nat, s: State, q: string)
    requires sc.Claims() && n < |sc.rows| && sc.Tracks(n, s.people) && s.races == sc.state.races
    requires ApplyRow(s, sc.rows[n], sc.plans[n], sc.newIDs, sc.freshIDs[n]).Ok?
    requires q in ApplyRow(s, sc.rows[n], sc.plans[n], sc.newIDs, sc.freshIDs[n]).value.people
    requires q in s.people ==> NamedBy(sc, n, q, s.people[q])
    ensures NamedBy(sc, n + 1, q, ApplyRow(s, sc.rows[n], sc.plans[n], sc.newIDs, sc.freshIDs[n]).value.people[q])
  {
    if sc.AppliesAt(n) {
      RowSays(sc, n, s, Email);
      NextLastWriter(sc, n, q);
    }
    assert q !in s.people ==> sc.LastWriter(n, q).None? && q !in sc.state.people;
  }

  lemma {:induction false} NamesAreLastSaid(r: Run, q: string)
    requires r.Ready() && DistinctKeys(r.s) && r.Outcome().Ok? && q in r.Outcome().value.people
    ensures r.WithTeams().Ok? && r.RowScript().state.people == r.s.people
    ensures NamedBy(r.RowScript(), |r.batch.rows|, q, r.Outcome().value.people[q])
  {
    PlanClaims(r);
    RunTeamsGoIn(r);
    PersonKeysStay(r.s, r.WithTeams().value);
    NamesAfter(r.RowScript(), |r.batch.rows|, q);
  }

  /** Race, team, leg, BIB and gender are those of the last row written to the person; the leg
      counts in a relay only, and a new team is known under its new id. */
  lemma {:induction false} PlaceIsLastSaid(r: Run, q: string, k: nat)
    requires r.Ready() && DistinctKeys(r.s) && r.Outcome().Ok? && r.WithTeams().Ok?
    requires k < |r.batch.rows| && r.RowScript().Writes(k, q)
    requires forall j :: k < j < |r.batch.rows| ==> !r.RowScript().Writes(j, q)
    ensures q in r.Outcome().value.people
    ensures var p, row, rp := r.Outcome().value.people[q], r.batch.rows[k], PlanOf(r.batch).rows[k];
            && p.raceID == row.raceID && p.bib == row.input.bib && p.gender == row.input.gender
            && p.legOrder == (if row.raceID in r.s.races && r.s.races[row.raceID].course == Relay then row.input.legOrder else None)
            && (rp.team.None? ==> p.teamID.None?)
            && (rp.team.Some? && rp.team.value.ToExisting? ==> p.teamID == Some(rp.team.value.id))
            && forall j :: 0 <= j < |r.teamIDs| && rp.team == Some(ToNew(PlanOf(r.batch).newTeams[j].key)) ==> p.teamID == Some(r.teamIDs[j])
  {
    PlaceIs(r, q, k);
    PlannedKeysAreNew(r.batch);
    TeamIDIs(PlanOf(r.batch).newTeams, r.teamIDs, PlanOf(r.batch).rows[k]);
  }

  lemma {:induction false} TeamIDIs(planned: seq<PlannedTeam>, ids: seq<string>, rp: RowPlan)
    requires |planned| == |ids| && forall j, k :: 0 <= j < k < |planned| ==> planned[j].key != planned[k].key
    ensures var id := TeamIDOf(rp, NewIDs(planned, ids, |ids|));
            && (rp.team.None? ==> id.None?)
            && (rp.team.Some? && rp.team.value.ToExisting? ==> id == Some(rp.team.value.id))
            && forall j :: 0 <= j < |ids| && rp.team == Some(ToNew(planned[j].key)) ==> id == Some(ids[j])
  {
    NewIDsAreExact(planned, ids, |ids|);
  }

  /** The last row's values, the team under the id the plan's team went in with. */
  lemma {:induction false} PlaceIs(r: Run, q: string, k: nat)
    requires r.Ready() && DistinctKeys(r.s) && r.Outcome().Ok? && r.WithTeams().Ok?
    requires k < |r.batch.rows| && r.RowScript().Writes(k, q)
    requires forall j :: k < j < |r.batch.rows| ==> !r.RowScript().Writes(j, q)
    ensures q in r.Outcome().value.people
    ensures var p, row := r.Outcome().value.people[q], r.batch.rows[k];
            && p.raceID == row.raceID && p.bib == row.input.bib && p.gender == row.input.gender
            && p.legOrder == LegOf(r.s.races, row) && p.teamID == TeamIDOf(PlanOf(r.batch).rows[k], r.RowScript().newIDs)
  {
    RunTeamsGoIn(r);
    EveryWriteKeepsKeys(r, |r.batch.rows|);
    var sc := r.RowScript();
    LastIs(sc, |sc.rows|, q, k);
  }

  lemma {:induction false} LastIs(sc: Script, n: nat, q: string, k: nat)
    requires sc.Shaped() && k < n <= |sc.rows| && sc.Writes(k, q) && forall j :: k < j < n ==> !sc.Writes(j, q)
    ensures sc.LastWriter(n, q) == Some(k)
  {
    if k < n - 1 {
      LastIs(sc, n - 1, q, k);
    }
  }
}
