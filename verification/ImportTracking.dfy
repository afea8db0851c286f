/** What the participant table holds after each single write of an import. */
module ImportTracking {
  import opened Wrappers
  import opened Registration
  import opened ImportPlan
  import opened EventState
  import opened ImportApply
  import opened Columns

  /** The writes of one import: the table they start from and the planned rows. */
  datatype Script = Script(
    state: State,
    rows: seq<ImportRow>,
    plans: seq<RowPlan>,
    newIDs: map<string, string>,
    freshIDs: seq<string>)
  {
    predicate Shaped() {
      |rows| == |plans| == |freshIDs|
    }

    /** The table after the first n rows, or the failure that aborted them. */
    function After(n: nat): Result<State, Failure>
      requires Shaped() && n <= |rows|
    {
      ApplyRows(state, rows, plans, newIDs, freshIDs, n)
    }

    predicate AppliesAt(k: int)
      requires Shaped()
    {
      0 <= k < |plans| && Applies(plans[k])
    }

    /** The participant an applied row writes. */
    function Target(k: nat): string
      requires Shaped() && k < |plans|
    {
      if plans[k].action == Update && plans[k].existingID.Some? then plans[k].existingID.value else freshIDs[k]
    }

    predicate Writes(k: int, q: string)
      requires Shaped()
    {
      AppliesAt(k) && Target(k) == q
    }

    /** The last of the first n rows that writes q. */
    function LastWriter(n: nat, q: string): (w: Option<nat>)
      requires Shaped() && n <= |plans|
      ensures w.Some? ==> w.value < n && Writes(w.value, q)
      ensures w.None? ==> forall k :: 0 <= k < n ==> !Writes(k, q)
    {
      if n == 0 then None
      else if Writes(n - 1, q) then Some(n - 1)
      else LastWriter(n - 1, q)
    }

    /** In this table, nobody but row k's target holds its BIB or its ref_id. */
    ghost predicate ClaimFree(people: map<string, Participant>, k: nat)
      requires Shaped() && k < |rows|
    {
      forall q :: q in people && q != Target(k) ==>
        people[q].bib != rows[k].input.bib && (rows[k].input.refID.Some? ==> people[q].refID != rows[k].input.refID)
    }

    /** The numbers row k writes fit their columns. */
    predicate RowFits(k: nat)
      requires Shaped() && k < |rows|
    {
      FitsInt4(rows[k].input.bib) && FitsInt4IfAny(LegOf(state.races, rows[k]))
    }

    /** What a plan guarantees before anything is written. */
    ghost predicate Claims() {
      && Shaped()
      && (forall k :: AppliesAt(k) && plans[k].action == Update ==>
            plans[k].existingID.Some? && plans[k].existingID.value in state.people)
      && (forall k :: 0 <= k < |rows| ==> freshIDs[k] !in state.people)
      && (forall j, k :: 0 <= j < k < |rows| ==> freshIDs[j] != freshIDs[k])
      && (forall k :: AppliesAt(k) ==> ClaimFree(state.people, k) && RowFits(k))
      && (forall j, k :: AppliesAt(j) && AppliesAt(k) && j != k ==>
            && rows[j].input.bib != rows[k].input.bib
            && (rows[j].input.refID.Some? ==> rows[j].input.refID != rows[k].input.refID))
    }

    /** p carries what row k and its plan say. */
    predicate Carries(p: Participant, k: nat)
      requires Shaped() && k < |rows|
    {
      && p.raceID == rows[k].raceID
      && p.teamID == TeamIDOf(plans[k], newIDs)
      && p.legOrder == LegOf(state.races, rows[k])
      && p.bib == rows[k].input.bib
      && p.gender == rows[k].input.gender
      && (rows[k].input.refID.Some? ==> p.refID == rows[k].input.refID)
    }

    /** A ref_id is the stored one or one that a written row brought. */
    ghost predicate RefHasSource(n: nat, q: string, ref: Option<string>)
      requires Shaped() && n <= |rows|
    {
      || ref.None?
      || (q in state.people && state.people[q].refID == ref)
      || (exists k :: 0 <= k < n && Writes(k, q) && rows[k].input.refID == ref)
    }

    /** The table after n writes: unwritten rows are as stored, a written one
        carries its last writer's row, and nothing else is there. */
    ghost predicate Tracks(n: nat, now: map<string, Participant>)
      requires Shaped() && n <= |rows|
    {
      && (forall q :: q in now <==> q in state.people || LastWriter(n, q).Some?)
      && (forall q :: q in now ==>
            match LastWriter(n, q)
            case None => q in state.people && now[q] == state.people[q]
            case Some(k) => Carries(now[q], k))
      && (forall q :: q in now ==> RefHasSource(n, q, now[q].refID))
    }
  }

  /** At the n-th write, nobody but its target holds its BIB or its ref_id. */
  lemma {:induction false} NextWriteIsFree(sc: Script, n: nat, now: map<string, Participant>)
    requires sc.Claims() && n < |sc.rows| && sc.AppliesAt(n) && sc.Tracks(n, now)
    ensures sc.ClaimFree(now, n)
  {
    forall q | q in now && q != sc.Target(n)
      ensures now[q].bib != sc.rows[n].input.bib
      ensures sc.rows[n].input.refID.Some? ==> now[q].refID != sc.rows[n].input.refID
    {
      var w := sc.LastWriter(n, q);
      assert sc.RefHasSource(n, q, now[q].refID);
    }
  }

  lemma NextLastWriter(sc: Script, n: nat, q: string)
    requires sc.Shaped() && n < |sc.rows| && sc.AppliesAt(n)
    ensures sc.LastWriter(n + 1, q) == if q == sc.Target(n) then Some(n) else sc.LastWriter(n, q)
  {
  }

  lemma SourcesStay(sc: Script, n: nat, q: string, ref: Option<string>)
    requires sc.Shaped() && n < |sc.rows| && sc.RefHasSource(n, q, ref)
    ensures sc.RefHasSource(n + 1, q, ref)
  {
  }

  /** p is what row n writes over the table: its own data, and a ref_id that is
      the row's or the one already there. */
  ghost predicate Writable(sc: Script, n: nat, now: map<string, Participant>, p: Participant)
    requires sc.Shaped() && n < |sc.rows|
  {
    && sc.Carries(p, n)
    && (p.refID == sc.rows[n].input.refID || (sc.Target(n) in now && p.refID == now[sc.Target(n)].refID))
  }

  /** One more write keeps track of the table. */
  lemma {:induction false} TrackOneMore(sc: Script, n: nat, now: map<string, Participant>, p: Participant)
    requires sc.Shaped() && n < |sc.rows| && sc.AppliesAt(n) && sc.Tracks(n, now)
    requires Writable(sc, n, now, p)
    ensures sc.Tracks(n + 1, now[sc.Target(n) := p])
  {
    var after := now[sc.Target(n) := p];
    forall q
      ensures q in after <==> q in sc.state.people || sc.LastWriter(n + 1, q).Some?
    {
      NextLastWriter(sc, n, q);
    }
    forall q | q in after
      ensures match sc.LastWriter(n + 1, q)
              case None => q in sc.state.people && after[q] == sc.state.people[q]
              case Some(k) => sc.Carries(after[q], k)
      ensures sc.RefHasSource(n + 1, q, after[q].refID)
    {
      NextLastWriter(sc, n, q);
      if q != sc.Target(n) || (q in now && p.refID == now[q].refID) {
        SourcesStay(sc, n, q, now[q].refID);
      } else {
        assert sc.Writes(n, q) && sc.rows[n].input.refID == p.refID;
      }
    }
  }

  lemma {:induction false} NothingWritten(sc: Script, n: nat, now: map<string, Participant>)
    requires sc.Shaped() && n < |sc.rows| && !sc.AppliesAt(n) && sc.Tracks(n, now)
    ensures sc.Tracks(n + 1, now)
  {
    forall q
      ensures sc.LastWriter(n + 1, q) == sc.LastWriter(n, q)
    {
    }
    forall q | q in now
      ensures sc.RefHasSource(n + 1, q, now[q].refID)
    {
      SourcesStay(sc, n, q, now[q].refID);
    }
  }

  lemma {:induction false} WrittenKeysAreFree(sc: Script, n: nat, s: State, p: Participant)
    requires sc.Shaped() && n < |sc.rows| && DistinctKeys(s)
    requires sc.ClaimFree(s.people, n) && Writable(sc, n, s.people, p)
    ensures BibFree(s, sc.Target(n), p.bib) && RefFree(s, sc.Target(n), p.refID)
  {
    if sc.Target(n) in s.people {
      assert RefFree(s, sc.Target(n), s.people[sc.Target(n)].refID);
    }
  }

  /** What row n writes. */
  lemma {:induction false} RowWrites(sc: Script, n: nat, s: State) returns (p: Participant)
    requires sc.Claims() && n < |sc.rows| && sc.AppliesAt(n) && sc.Tracks(n, s.people) && s.races == sc.state.races
    ensures Writable(sc, n, s.people, p)
    ensures ApplyRow(s, sc.rows[n], sc.plans[n], sc.newIDs, sc.freshIDs[n]) == PutPerson(s, sc.Target(n), p)
  {
    var row, rp, target := sc.rows[n], sc.plans[n], sc.Target(n);
    p := if rp.action == Create then Created(s.races, row, rp, sc.newIDs)
         else Updated(s.races, s.people[target], row, rp, sc.newIDs);
  }

  /** The import stopped on a leg already taken, or the table is tracked and its
      keys are distinct. */
  ghost predicate FineAfter(sc: Script, n: nat, outcome: Result<State, Failure>)
    requires sc.Shaped() && n <= |sc.rows|
  {
    match outcome
    case Err(e) => e == LegTaken
    case Ok(s) =>
      && s.races == sc.state.races && s.teams == sc.state.teams
      && sc.Tracks(n, s.people)
      && DistinctKeys(s)
  }

  /** The n-th step stops on a leg or keeps the table tracked and its keys distinct. */
  lemma {:induction false} StepIsTracked(sc: Script, n: nat, s: State)
    requires sc.Claims() && n < |sc.rows| && FineAfter(sc, n, Ok(s))
    ensures FineAfter(sc, n + 1, ApplyRow(s, sc.rows[n], sc.plans[n], sc.newIDs, sc.freshIDs[n]))
  {
    if sc.AppliesAt(n) {
      var p := RowWrites(sc, n, s);
      NextWriteIsFree(sc, n, s.people);
      WrittenKeysAreFree(sc, n, s, p);
      if PutPerson(s, sc.Target(n), p).Ok? {
        PutPersonKeepsKeys(s, sc.Target(n), p);
        TrackOneMore(sc, n, s.people, p);
      }
    } else {
      NothingWritten(sc, n, s.people);
    }
  }

  /** After any number of rows the import either stopped on a leg already taken
      or holds exactly the tracked table; no BIB and no ref_id ever collides. */
  lemma {:induction false} WritesAreTracked(sc: Script, n: nat)
    requires sc.Claims() && n <= |sc.rows| && DistinctKeys(sc.state)
    ensures FineAfter(sc, n, sc.After(n))
  {
    if n > 0 {
      WritesAreTracked(sc, n - 1);
      NextWrite(sc, n - 1);
      if sc.After(n - 1).Ok? {
        StepIsTracked(sc, n - 1, sc.After(n - 1).value);
      }
    }
  }

  lemma NextWrite(sc: Script, n: nat)
    requires sc.Shaped() && n < |sc.rows|
    ensures sc.After(n).Err? ==> sc.After(n + 1) == sc.After(n)
    ensures sc.After(n).Ok? ==>
              sc.After(n + 1) == ApplyRow(sc.After(n).value, sc.rows[n], sc.plans[n], sc.newIDs, sc.freshIDs[n])
  {
  }

  /** Legs stay distinct through every write an import makes, whoever it rejects. */
  lemma {:induction false} WritesKeepLegs(sc: Script, n: nat)
    requires sc.Shaped() && n <= |sc.rows| && DistinctLegs(sc.state) && sc.After(n).Ok?
    ensures DistinctLegs(sc.After(n).value)
  {
    if n > 0 {
      WritesKeepLegs(sc, n - 1);
      RowKeepsLegs(sc.After(n - 1).value, sc.rows[n - 1], sc.plans[n - 1], sc.newIDs, sc.freshIDs[n - 1]);
    }
  }

  lemma {:induction false} RowKeepsLegs(s: State, row: ImportRow, rp: RowPlan, newIDs: map<string, string>, freshID: string)
    requires DistinctLegs(s) && ApplyRow(s, row, rp, newIDs, freshID).Ok?
    ensures DistinctLegs(ApplyRow(s, row, rp, newIDs, freshID).value)
  {
    match rp.action
    case Create => PutKeepsLegs(s, freshID, Created(s.races, row, rp, newIDs));
    case Update => PutKeepsLegs(s, rp.existingID.value, Updated(s.races, s.people[rp.existingID.value], row, rp, newIDs));
    case _ =>
  }

  lemma {:induction false} PutKeepsLegs(s: State, id: string, p: Participant)
    requires DistinctLegs(s) && PutPerson(s, id, p).Ok?
    ensures DistinctLegs(PutPerson(s, id, p).value)
  {
    var after := PutPerson(s, id, p).value;
    forall q | q in after.people
      ensures LegFree(after, q, after.people[q].teamID, after.people[q].legOrder)
    {
    }
  }
}
