/** Importing the same file a second time, in skip mode, on the table the first
    import left: exactly when every row is skipped. */
module ImportReplay {
  import opened Wrappers
  import opened Registration
  import opened ImportPlan
  import opened EventState
  import opened ImportTracking
  import opened ImportSafety
  import opened ImportRefinement

  /** The same rows planned again, in skip mode, on the table the first run left. */
  ghost predicate Replays(r: Run, again: PlanInput) {
    && r.Ready() && DistinctKeys(r.s)
    && r.Outcome().Ok?
    && again.rows == r.batch.rows && again.races == r.batch.races && !again.updateExisting
    && ListsPeople(again.existing, r.Outcome().value.people)
  }

  /** What both plans and the table say of one applied row. */
  ghost predicate Settled(sc: Script, now: map<string, Participant>) {
    && sc.Claims()
    && sc.Tracks(|sc.rows|, now)
    && UniqueKeys(now)
    && RefsKept(sc.state.people, now)
  }

  /** No stored participant lost its ref_id. */
  ghost predicate RefsKept(before: map<string, Participant>, after: map<string, Participant>) {
    forall q :: q in before && before[q].refID.Some? ==> q in after && after[q].refID.Some?
  }

  lemma {:induction false} RefsAreKept(sc: Script, n: nat)
    requires sc.Claims() && n <= |sc.rows| && sc.After(n).Ok?
    ensures RefsKept(sc.state.people, sc.After(n).value.people)
  {
    if n > 0 {
      RefsAreKept(sc, n - 1);
    }
  }

  /** The stored participant an updated row matched: by its ref_id, or by its
      BIB when at most one of the two has a ref_id. */
  ghost predicate MatchedBy(stored: Participant, input: Input) {
    || (input.refID.Some? && stored.refID == input.refID)
    || (stored.bib == input.bib && (input.refID.None? || stored.refID.None?))
  }

  lemma {:induction false} JudgedMatch(batch: PlanInput, people: map<string, Participant>, i: nat)
    requires ListsPeople(batch.existing, people) && i < |batch.rows|
    ensures Judge(batch, i).action == Update ==>
              var id := Judge(batch, i).existingID;
              id.Some? && id.value in people && MatchedBy(people[id.value], batch.rows[i].input)
  {
    JudgeIsSound(batch, i);
    LastByBibIsListed(batch.existing, batch.rows[i].input.bib);
    if batch.rows[i].input.refID.Some? {
      LastByRefIsListed(batch.existing, batch.rows[i].input.refID.value);
    }
  }

  /** Every updated row was matched to its target. */
  ghost predicate TargetsMatch(sc: Script)
    requires sc.Shaped()
  {
    forall k :: sc.AppliesAt(k) && sc.Target(k) in sc.state.people ==> MatchedBy(sc.state.people[sc.Target(k)], sc.rows[k].input)
  }

  /** A later row writes the same participant. */
  predicate Overwritten(sc: Script, k: nat)
    requires sc.Shaped() && k < |sc.rows|
  {
    exists j :: k < j < |sc.rows| && sc.Writes(j, sc.Target(k))
  }

  lemma {:induction false} LastWriterIsLatest(sc: Script, k: nat, n: nat)
    requires sc.Shaped() && k < n <= |sc.rows| && sc.AppliesAt(k)
    ensures var w := sc.LastWriter(n, sc.Target(k));
            w.Some? && k <= w.value && (w == Some(k) <==> forall j :: k < j < n ==> !sc.Writes(j, sc.Target(k)))
  {
    if k < n - 1 && !sc.Writes(n - 1, sc.Target(k)) {
      LastWriterIsLatest(sc, k, n - 1);
    }
  }

  /** An overwritten row's BIB is nobody's any more. */
  lemma {:induction false} OverwrittenBibIsFree(sc: Script, now: map<string, Participant>, k: nat)
    requires Settled(sc, now) && k < |sc.rows| && sc.AppliesAt(k) && Overwritten(sc, k)
    ensures forall q :: q in now ==> now[q].bib != sc.rows[k].input.bib
  {
    LastWriterIsLatest(sc, k, |sc.rows|);
    forall q | q in now
      ensures now[q].bib != sc.rows[k].input.bib
    {
      assert sc.ClaimFree(sc.state.people, k);
    }
  }

  /** Two rows on one participant: one of them found it by its stored ref_id. */
  lemma {:induction false} SharedTarget(sc: Script, j: nat, k: nat)
    requires sc.Claims() && TargetsMatch(sc) && j < |sc.rows| && k < |sc.rows| && j != k
    requires sc.AppliesAt(j) && sc.AppliesAt(k) && sc.Target(j) == sc.Target(k)
    ensures sc.Target(k) in sc.state.people
    ensures sc.rows[k].input.refID.Some? ==>
              sc.rows[j].input.refID.None? && sc.state.people[sc.Target(k)].refID == sc.rows[k].input.refID
  {
    assert sc.plans[k].action == Update;
    assert MatchedBy(sc.state.people[sc.Target(k)], sc.rows[k].input);
    assert MatchedBy(sc.state.people[sc.Target(j)], sc.rows[j].input);
  }

  /** An overwritten row with a ref_id still finds its participant by it. */
  lemma {:induction false} OverwrittenKeepsRef(sc: Script, now: map<string, Participant>, k: nat)
    requires Settled(sc, now) && TargetsMatch(sc)
    requires k < |sc.rows| && sc.AppliesAt(k) && Overwritten(sc, k) && sc.rows[k].input.refID.Some?
    ensures sc.Target(k) in now && now[sc.Target(k)].refID == sc.rows[k].input.refID
  {
    var q := sc.Target(k);
    var j :| k < j < |sc.rows| && sc.Writes(j, q);
    SharedTarget(sc, j, k);
    assert sc.RefHasSource(|sc.rows|, q, now[q].refID);
    forall i | 0 <= i < |sc.rows| && sc.Writes(i, q) && i != k
      ensures sc.rows[i].input.refID.None?
    {
      SharedTarget(sc, i, k);
    }
  }

  /** An applied row is matched again unless it has no ref_id and a later row
      took its participant. */
  lemma {:induction false} AppliedRowIsFound(sc: Script, now: map<string, Participant>, existing: seq<Existing>, k: nat)
    requires Settled(sc, now) && TargetsMatch(sc) && ListsPeople(existing, now)
    requires k < |sc.rows| && sc.AppliesAt(k)
    ensures sc.Target(k) in now
    ensures FindMatch(existing, sc.rows[k].input) ==
            if Overwritten(sc, k) && sc.rows[k].input.refID.None? then NoMatch
            else Matched(ViewOf(sc.Target(k), now[sc.Target(k)]), Overwritten(sc, k))
  {
    var input := sc.rows[k].input;
    LastWriterIsLatest(sc, k, |sc.rows|);
    BibLookupIsExact(existing, now, input.bib);
    if input.refID.Some? {
      RefLookupIsExact(existing, now, input.refID.value);
    }
    if Overwritten(sc, k) {
      OverwrittenBibIsFree(sc, now, k);
      if input.refID.Some? {
        OverwrittenKeepsRef(sc, now, k);
      }
    }
  }

  // ---- rows the first run skipped

  /** A skip-mode import only adds participants. */
  ghost predicate OnlyAdds(sc: Script)
    requires sc.Shaped()
  {
    forall k :: sc.AppliesAt(k) ==> sc.Target(k) !in sc.state.people
  }

  /** No written row brings this BIB or this ref_id. */
  ghost predicate Unclaimed(sc: Script, input: Input)
    requires sc.Shaped()
  {
    forall k :: sc.AppliesAt(k) ==>
      sc.rows[k].input.bib != input.bib && (input.refID.Some? ==> sc.rows[k].input.refID != input.refID)
  }

  /** What a skip-mode import adds holds neither the BIB nor the ref_id of a row it skipped. */
  lemma {:induction false} AddedIsUnrelated(sc: Script, now: map<string, Participant>, input: Input, q: string)
    requires Settled(sc, now) && OnlyAdds(sc) && Unclaimed(sc, input) && q in now
    ensures q in sc.state.people ==> now[q] == sc.state.people[q]
    ensures q !in sc.state.people ==> now[q].bib != input.bib && (input.refID.Some? ==> now[q].refID != input.refID)
  {
    assert sc.RefHasSource(|sc.rows|, q, now[q].refID);
  }

  /** The table grew by participants that hold neither the BIB nor the ref_id. */
  ghost predicate GrowsAround(people: map<string, Participant>, now: map<string, Participant>, input: Input) {
    && (forall q :: q in people ==> q in now && now[q] == people[q])
    && (forall q :: q in now && q !in people ==>
          now[q].bib != input.bib && (input.refID.Some? ==> now[q].refID != input.refID))
  }

  lemma {:induction false} SkippedRowsKeepTheirMatch(sc: Script, now: map<string, Participant>, input: Input)
    requires Settled(sc, now) && OnlyAdds(sc) && Unclaimed(sc, input)
    ensures GrowsAround(sc.state.people, now, input)
  {
    forall q | q in now
      ensures q in sc.state.people ==> now[q] == sc.state.people[q]
      ensures q !in sc.state.people ==> now[q].bib != input.bib && (input.refID.Some? ==> now[q].refID != input.refID)
    {
      AddedIsUnrelated(sc, now, input, q);
    }
  }

  lemma {:induction false} BibLookupIsKept(people: map<string, Participant>, now: map<string, Participant>,
                        before: seq<Existing>, after: seq<Existing>, input: Input)
    requires GrowsAround(people, now, input)
    requires ListsPeople(before, people) && UniqueKeys(people) && ListsPeople(after, now) && UniqueKeys(now)
    ensures LastByBib(after, input.bib) == LastByBib(before, input.bib)
  {
    BibLookupIsExact(before, people, input.bib);
    BibLookupIsExact(after, now, input.bib);
  }

  lemma {:induction false} RefLookupIsKept(people: map<string, Participant>, now: map<string, Participant>,
                        before: seq<Existing>, after: seq<Existing>, input: Input)
    requires GrowsAround(people, now, input) && input.refID.Some?
    requires ListsPeople(before, people) && UniqueKeys(people) && ListsPeople(after, now) && UniqueKeys(now)
    ensures LastByRef(after, input.refID.value) == LastByRef(before, input.refID.value)
  {
    RefLookupIsExact(before, people, input.refID.value);
    RefLookupIsExact(after, now, input.refID.value);
  }

  /** So the second listing answers the row's lookups as the first did. */
  lemma {:induction false} MatchIsKept(people: map<string, Participant>, now: map<string, Participant>,
                    before: seq<Existing>, after: seq<Existing>, input: Input)
    requires GrowsAround(people, now, input)
    requires ListsPeople(before, people) && UniqueKeys(people) && ListsPeople(after, now) && UniqueKeys(now)
    ensures FindMatch(after, input) == FindMatch(before, input)
  {
    BibLookupIsKept(people, now, before, after, input);
    if input.refID.Some? {
      RefLookupIsKept(people, now, before, after, input);
    }
  }

  // ---- the whole file

  lemma {:induction false} RunSettles(r: Run)
    requires r.Ready() && DistinctKeys(r.s) && r.Outcome().Ok?
    ensures r.WithTeams().Ok?
    ensures Settled(r.RowScript(), r.Outcome().value.people) && TargetsMatch(r.RowScript())
    ensures r.RowScript().state.people == r.s.people
  {
    var sc := r.RowScript();
    EveryWriteKeepsKeys(r, |r.batch.rows|);
    PlanClaims(r);
    RunTeamsGoIn(r);
    RefsAreKept(sc, |sc.rows|);
    DistinctKeysAreUnique(r.Outcome().value);
    forall k | sc.AppliesAt(k) && sc.Target(k) in sc.state.people
      ensures MatchedBy(sc.state.people[sc.Target(k)], sc.rows[k].input)
    {
      AppliedRowWasJudged(r.batch, k);
      JudgedMatch(r.batch, r.s.people, k);
    }
  }

  /** What the second pass over the file decides on a row of the first. */
  lemma {:induction false} RowIsFoundAgain(r: Run, again: PlanInput, i: nat)
    requires Replays(r, again) && i < |r.batch.rows|
    requires PlanOf(r.batch).rows[i].action != Rejected
    ensures r.WithTeams().Ok?
    ensures FindMatch(again.existing, r.batch.rows[i].input).Matched? <==>
              !(Overwritten(r.RowScript(), i) && Applies(PlanOf(r.batch).rows[i]) && r.batch.rows[i].input.refID.None?)
    ensures !FindMatch(again.existing, r.batch.rows[i].input).Matched? ==> FindMatch(again.existing, r.batch.rows[i].input).NoMatch?
  {
    var sc := r.RowScript();
    RunSettles(r);
    if Applies(PlanOf(r.batch).rows[i]) {
      AppliedRowIsFound(sc, r.Outcome().value.people, again.existing, i);
    } else {
      SkippedRow(r, i);
      DistinctKeysAreUnique(r.s);
      SkippedRowsKeepTheirMatch(sc, r.Outcome().value.people, r.batch.rows[i].input);
      MatchIsKept(r.s.people, r.Outcome().value.people, r.batch.existing, again.existing, r.batch.rows[i].input);
    }
  }

  /** A row neither written nor rejected was skipped by pass 1. */
  lemma {:induction false} SkippedByPassOne(batch: PlanInput, i: nat)
    requires i < |batch.rows|
    requires !Applies(PlanOf(batch).rows[i]) && PlanOf(batch).rows[i].action != Rejected
    ensures Judge(batch, i).action == Skip && !batch.updateExisting
    ensures FindMatch(batch.existing, batch.rows[i].input).Matched?
  {
    var d := DraftOf(batch);
    DraftIsSound(batch);
    if Joins(d.races, d.entries[i]) {
      JoiningRow(d, i);
    } else {
      OtherRow(d, i);
    }
  }

  lemma {:induction false} SkippedRow(r: Run, i: nat)
    requires r.Ready() && DistinctKeys(r.s) && r.WithTeams().Ok? && i < |r.batch.rows|
    requires r.RowScript().state.people == r.s.people
    requires !Applies(PlanOf(r.batch).rows[i]) && PlanOf(r.batch).rows[i].action != Rejected
    ensures FindMatch(r.batch.existing, r.batch.rows[i].input).Matched?
    ensures OnlyAdds(r.RowScript()) && Unclaimed(r.RowScript(), r.batch.rows[i].input)
  {
    SkippedByPassOne(r.batch, i);
    forall k | r.RowScript().AppliesAt(k)
      ensures r.RowScript().Target(k) !in r.s.people
      ensures r.batch.rows[k].input.bib != r.batch.rows[i].input.bib
      ensures r.batch.rows[i].input.refID.Some? ==> r.batch.rows[k].input.refID != r.batch.rows[i].input.refID
    {
      AppliedAvoidsSkipped(r, i, k);
    }
  }

  /** Beside a row that was skipped, every row that applies creates somebody with other keys. */
  lemma {:induction false} AppliedAvoidsSkipped(r: Run, i: nat, k: nat)
    requires r.Ready() && DistinctKeys(r.s) && r.WithTeams().Ok? && i < |r.batch.rows| && r.RowScript().AppliesAt(k)
    requires !Applies(PlanOf(r.batch).rows[i]) && Judge(r.batch, i).action != Rejected && !r.batch.updateExisting
    ensures r.RowScript().Target(k) !in r.s.people
    ensures r.batch.rows[k].input.bib != r.batch.rows[i].input.bib
    ensures r.batch.rows[i].input.refID.Some? ==> r.batch.rows[k].input.refID != r.batch.rows[i].input.refID
  {
    SkipModeCreates(r.batch, k);
    AcceptedRowsDiffer(r.batch, i, k);
  }

  lemma {:induction false} SkipModeCreates(batch: PlanInput, k: nat)
    requires k < |batch.rows| && Applies(PlanOf(batch).rows[k]) && !batch.updateExisting
    ensures PlanOf(batch).rows[k].action == Create && Judge(batch, k).action == Create
  {
    AppliedRowWasJudged(batch, k);
  }

  /** In the plan itself: a row without a ref_id re-registers a participant
      that a later row re-registers too, under another BIB. */
  predicate LosesItsPerson(rows: seq<ImportRow>, plans: seq<RowPlan>, j: nat)
    requires j < |rows| == |plans|
  {
    && Applies(plans[j]) && rows[j].input.refID.None? && plans[j].existingID.Some?
    && exists k :: j < k < |plans| && Applies(plans[k]) && plans[k].existingID == plans[j].existingID
  }

  lemma {:induction false} LosersAreOverwritten(r: Run, j: nat)
    requires r.Ready() && DistinctKeys(r.s) && r.WithTeams().Ok? && r.RowScript().Claims() && j < |r.batch.rows|
    ensures LosesItsPerson(r.batch.rows, PlanOf(r.batch).rows, j) <==>
              Applies(PlanOf(r.batch).rows[j]) && r.batch.rows[j].input.refID.None? && Overwritten(r.RowScript(), j)
  {
    var sc, plans := r.RowScript(), PlanOf(r.batch).rows;
    RunTeamsGoIn(r);
    forall k | j <= k < |plans| && Applies(plans[k])
      ensures plans[k].existingID.Some? <==> plans[k].action == Update
      ensures plans[k].existingID.Some? ==> sc.Target(k) == plans[k].existingID.value && sc.Target(k) in r.s.people
      ensures plans[k].existingID.None? ==> sc.Target(k) == r.freshIDs[k] && sc.Target(k) !in r.s.people
    {
      assert sc.AppliesAt(k);
      AppliedRowWasJudged(r.batch, k);
      JudgeIsSound(r.batch, k);
    }
    if Applies(plans[j]) && Overwritten(sc, j) {
      var k :| j < k < |sc.rows| && sc.Writes(k, sc.Target(j));
      assert plans[k].existingID == plans[j].existingID;
    }
    if LosesItsPerson(r.batch.rows, plans, j) {
      var k :| j < k < |plans| && Applies(plans[k]) && plans[k].existingID == plans[j].existingID;
      assert sc.Writes(k, sc.Target(j));
    }
  }

  lemma {:induction false} SecondJudgement(r: Run, again: PlanInput, i: nat)
    requires Replays(r, again) && i < |r.batch.rows|
    requires PlanOf(r.batch).rows[i].action != Rejected
    ensures Judge(again, i).action == if LosesItsPerson(r.batch.rows, PlanOf(r.batch).rows, i) then Create else Skip
  {
    var row := r.batch.rows[i];
    RowIsFoundAgain(r, again, i);
    PlanClaims(r);
    LosersAreOverwritten(r, i);
    AcceptedScreen(r.batch, i);
    SameScreen(r.batch, again, row);
  }

  lemma {:induction false} SameScreen(batch: PlanInput, again: PlanInput, row: ImportRow)
    requires again.rows == batch.rows && again.races == batch.races
    ensures Screen(again, row) == Screen(batch, row)
  {
    assert BibIssues(again, row) == BibIssues(batch, row) && RefIssues(again, row) == RefIssues(batch, row);
  }

  lemma {:induction false} AcceptedScreen(batch: PlanInput, i: nat)
    requires i < |batch.rows| && PlanOf(batch).rows[i].action != Rejected
    ensures !HasError(Screen(batch, batch.rows[i]))
  {
    var d := DraftOf(batch);
    DraftIsSound(batch);
    if Joins(d.races, d.entries[i]) {
      JoiningRow(d, i);
    } else {
      OtherRow(d, i);
    }
  }

  /** A draft in which no row applies plans nothing. */
  lemma {:induction false} NothingJoins(d: Draft, n: nat)
    requires n <= |d.entries| && forall i :: 0 <= i < |d.entries| ==> !Applies(d.entries[i].judged)
    ensures KeysUpTo(d, n) == []
  {
    if n > 0 {
      NothingJoins(d, n - 1);
    }
  }

  /** Final and first decisions agree on which rows are skipped. */
  lemma {:induction false} SkipsAreJudged(batch: PlanInput, i: nat)
    requires i < |batch.rows|
    ensures PlanOf(batch).rows[i].action == Skip <==> Judge(batch, i).action == Skip
  {
    var d := DraftOf(batch);
    DraftIsSound(batch);
    if Joins(d.races, d.entries[i]) {
      JoiningRow(d, i);
    } else {
      OtherRow(d, i);
    }
  }

  /** Replaying an import whose first plan had no error: the second run skips
      every row and creates no team if and only if no row of the first, without
      a ref_id of its own, lost its participant to a later row. */
  lemma {:induction false} ReplaySkipsEveryRow(r: Run, again: PlanInput)
    requires Replays(r, again)
    requires forall i :: 0 <= i < |r.batch.rows| ==> PlanOf(r.batch).rows[i].action != Rejected
    ensures (forall i :: 0 <= i < |r.batch.rows| ==> PlanOf(again).rows[i].action == Skip) <==>
            (forall i :: 0 <= i < |r.batch.rows| ==> !LosesItsPerson(r.batch.rows, PlanOf(r.batch).rows, i))
    ensures (forall i :: 0 <= i < |r.batch.rows| ==> PlanOf(again).rows[i].action == Skip) ==> PlanOf(again).newTeams == []
  {
    forall i | 0 <= i < |r.batch.rows|
      ensures PlanOf(again).rows[i].action == Skip <==> !LosesItsPerson(r.batch.rows, PlanOf(r.batch).rows, i)
      ensures PlanOf(again).rows[i].action == Skip ==> !Applies(DraftOf(again).entries[i].judged)
    {
      SecondJudgement(r, again, i);
      SkipsAreJudged(again, i);
    }
    if forall i :: 0 <= i < |r.batch.rows| ==> PlanOf(again).rows[i].action == Skip {
      NothingJoins(DraftOf(again), |again.rows|);
    }
  }

  /** When the first run was itself in skip mode, nothing more is needed. */
  lemma {:induction false} SkipModeReplays(r: Run, again: PlanInput)
    requires Replays(r, again) && !r.batch.updateExisting
    requires forall i :: 0 <= i < |r.batch.rows| ==> PlanOf(r.batch).rows[i].action != Rejected
    ensures forall i :: 0 <= i < |r.batch.rows| ==> PlanOf(again).rows[i].action == Skip
    ensures PlanOf(again).newTeams == []
  {
    forall i | 0 <= i < |r.batch.rows| && Applies(PlanOf(r.batch).rows[i])
      ensures PlanOf(r.batch).rows[i].existingID.None?
    {
      SkipModeCreates(r.batch, i);
      AppliedRowWasJudged(r.batch, i);
      JudgeIsSound(r.batch, i);
    }
    ReplaySkipsEveryRow(r, again);
  }
}
