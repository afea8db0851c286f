/** Which imports fail: exactly those in which a row takes a leg of a stored team
    while the person holding it has not been written yet. */
module ImportLegs {
  import opened Wrappers
  import opened ImportPlan
  import opened ImportGuarantees
  import opened EventState
  import opened ImportApply
  import opened ImportTracking
  import opened ImportSafety
  import opened ImportTeams

  /** Row k takes a leg of a stored team that q still holds when it is written:
      q is another stored member of the team with that very leg, and no applied
      row before k re-registers q. A dry run and the table tell. */
  predicate LegStillHeld(s: State, rows: seq<ImportRow>, plans: seq<RowPlan>, k: int, q: string)
    requires |rows| == |plans|
  {
    && 0 <= k < |rows| && Applies(plans[k]) && q in s.people
    && plans[k].existingID != Some(q)
    && plans[k].team.Some? && plans[k].team.value.ToExisting?
    && s.people[q].teamID == Some(plans[k].team.value.id)
    && s.people[q].legOrder.Some? && LegOf(s.races, rows[k]) == s.people[q].legOrder
    && forall j :: 0 <= j < k && Applies(plans[j]) ==> plans[j].existingID != Some(q)
  }

  // ---- plan and script speak of the same targets

  /** A stored participant is written by exactly the rows that re-register it. */
  lemma {:induction false} StoredTarget(r: Run, sc: Script, k: int, q: string)
    requires r.Ready() && DistinctKeys(r.s) && r.WithTeams().Ok? && sc == r.RowScript() && sc.Claims() && q in r.s.people
    ensures sc.Writes(k, q) <==> sc.AppliesAt(k) && sc.plans[k].existingID == Some(q)
  {
    RunTeamsGoIn(r);
    if sc.AppliesAt(k) {
      AppliedRowWasJudged(r.batch, k);
      JudgeIsSound(r.batch, k);
    }
  }

  lemma {:induction false} NotYetWritten(sc: Script, n: nat, q: string)
    requires sc.Shaped() && n <= |sc.plans|
    ensures sc.LastWriter(n, q).None? <==> forall j :: 0 <= j < n ==> !sc.Writes(j, q)
  {
  }

  // ---- a held leg stops the import

  lemma {:induction false} EarlierIsOk(sc: Script, m: nat, n: nat)
    requires sc.Shaped() && m <= n <= |sc.rows| && sc.After(n).Ok?
    ensures sc.After(m).Ok?
  {
    if m < n {
      EarlierIsOk(sc, m, n - 1);
    }
  }

  /** At row k the table still shows q with the leg, so the write is refused. */
  lemma {:induction false} HeldLegRefuses(sc: Script, k: nat, q: string, s: State)
    requires sc.Claims() && k < |sc.rows| && sc.AppliesAt(k) && FineAfter(sc, k, Ok(s))
    requires q in sc.state.people && q != sc.Target(k) && sc.LastWriter(k, q).None?
    requires TeamIDOf(sc.plans[k], sc.newIDs).Some? && LegOf(sc.state.races, sc.rows[k]).Some?
    requires sc.state.people[q].teamID == TeamIDOf(sc.plans[k], sc.newIDs)
    requires sc.state.people[q].legOrder == LegOf(sc.state.races, sc.rows[k])
    ensures ApplyRow(s, sc.rows[k], sc.plans[k], sc.newIDs, sc.freshIDs[k]).Err?
  {
    var p := RowWrites(sc, k, s);
    assert q in s.people && s.people[q] == sc.state.people[q];
    assert !LegFree(s, sc.Target(k), p.teamID, p.legOrder);
  }

  lemma {:induction false} HolderIsUnwritten(r: Run, sc: Script, k: nat, q: string)
    requires r.Ready() && DistinctKeys(r.s) && r.WithTeams().Ok? && sc == r.RowScript() && sc.Claims()
    requires LegStillHeld(r.s, r.batch.rows, sc.plans, k, q)
    ensures q != sc.Target(k) && sc.LastWriter(k, q).None?
  {
    StoredTarget(r, sc, k, q);
    forall j | 0 <= j < k
      ensures !sc.Writes(j, q)
    {
      StoredTarget(r, sc, j, q);
    }
    NotYetWritten(sc, k, q);
  }

  /** An import that reaches a row whose leg is still held ends there. */
  lemma {:induction false} StopsAt(sc: Script, k: nat, q: string)
    requires sc.Claims() && DistinctKeys(sc.state) && LegStillHeld(sc.state, sc.rows, sc.plans, k, q)
    requires q != sc.Target(k) && sc.LastWriter(k, q).None?
    ensures sc.After(|sc.rows|).Err?
  {
    if sc.After(|sc.rows|).Ok? {
      EarlierIsOk(sc, k, |sc.rows|);
      EarlierIsOk(sc, k + 1, |sc.rows|);
      WritesAreTracked(sc, k);
      HeldLegRefuses(sc, k, q, sc.After(k).value);
    }
  }

  // ---- nothing else does

  /** The row on which an import stops. */
  lemma {:induction false} FirstFailure(sc: Script, n: nat) returns (k: nat)
    requires sc.Shaped() && n <= |sc.rows| && sc.After(n).Err?
    ensures k < n && sc.After(k).Ok? && sc.After(k + 1).Err?
  {
    if sc.After(n - 1).Ok? {
      k := n - 1;
    } else {
      k := FirstFailure(sc, n - 1);
    }
  }

  /** A refused write meets a leg somebody else holds. */
  lemma {:induction false} RefusedByHolder(sc: Script, k: nat, s: State) returns (q: string)
    requires sc.Claims() && k < |sc.rows| && FineAfter(sc, k, Ok(s))
    requires ApplyRow(s, sc.rows[k], sc.plans[k], sc.newIDs, sc.freshIDs[k]).Err?
    ensures sc.AppliesAt(k) && q in s.people && q != sc.Target(k)
    ensures TeamIDOf(sc.plans[k], sc.newIDs).Some? && s.people[q].teamID == TeamIDOf(sc.plans[k], sc.newIDs)
    ensures LegOf(sc.state.races, sc.rows[k]).Some? && s.people[q].legOrder == LegOf(sc.state.races, sc.rows[k])
  {
    var p := RowWrites(sc, k, s);
    NextWriteIsFree(sc, k, s.people);
    WrittenKeysAreFree(sc, k, s, p);
    assert !LegFree(s, sc.Target(k), p.teamID, p.legOrder);
    q :| q in s.people && q != sc.Target(k) && s.people[q].teamID == p.teamID && s.people[q].legOrder == p.legOrder;
  }

  /** No earlier row of the import gave the leg away: seated rows of one team ask
      for different legs. */
  lemma {:induction false} WritersLegsDiffer(r: Run, sc: Script, j: nat, k: nat, t: string)
    requires Started(r) && sc == r.RowScript() && j != k && sc.AppliesAt(j) && sc.AppliesAt(k)
    requires TeamIDOf(sc.plans[j], sc.newIDs) == Some(t) && TeamIDOf(sc.plans[k], sc.newIDs) == Some(t)
    requires LegOf(sc.state.races, sc.rows[j]).Some?
    ensures LegOf(sc.state.races, sc.rows[j]) != LegOf(sc.state.races, sc.rows[k])
  {
    var d := DraftOf(r.batch);
    WrittenRowIsSeated(r, j, t);
    WrittenRowIsSeated(r, k, t);
    OneGroupPerTeam(r, KeyOf(d.entries[j]), KeyOf(d.entries[k]), t);
    SeatedLegsDiffer(d, KeyOf(d.entries[k]), j, k);
  }

  /** A row written into a stored team was planned into it. */
  lemma {:induction false} StoredTeamIsPlanned(r: Run, sc: Script, k: nat, t: string)
    requires Started(r) && sc == r.RowScript() && sc.AppliesAt(k)
    requires TeamIDOf(sc.plans[k], sc.newIDs) == Some(t) && t in r.s.teams
    ensures sc.plans[k].team == Some(ToExisting(t))
  {
    var d := DraftOf(r.batch);
    DraftIsSound(r.batch);
    WrittenRowIsSeated(r, k, t);
    JoiningRow(d, k);
    assert sc.plans[k] == RowOf(d, k);
  }

  lemma {:induction false} HolderWasStored(r: Run, sc: Script, k: nat, q: string, s: State)
    requires Started(r) && sc == r.RowScript() && k < |sc.rows| && sc.AppliesAt(k) && FineAfter(sc, k, Ok(s))
    requires q in s.people && q != sc.Target(k)
    requires TeamIDOf(sc.plans[k], sc.newIDs).Some? && s.people[q].teamID == TeamIDOf(sc.plans[k], sc.newIDs)
    requires LegOf(sc.state.races, sc.rows[k]).Some? && s.people[q].legOrder == LegOf(sc.state.races, sc.rows[k])
    ensures sc.LastWriter(k, q).None? && q in sc.state.people && s.people[q] == sc.state.people[q]
  {
    var w := sc.LastWriter(k, q);
    if w.Some? {
      WritersLegsDiffer(r, sc, w.value, k, s.people[q].teamID.value);
    }
  }

  lemma {:induction false} FailureMeansHeldLeg(r: Run, sc: Script) returns (k: nat, q: string)
    requires Started(r) && sc == r.RowScript() && sc.Claims() && DistinctKeys(sc.state) && sc.state.races == r.s.races && sc.state.people == r.s.people
    requires sc.After(|sc.rows|).Err?
    ensures LegStillHeld(r.s, r.batch.rows, PlanOf(r.batch).rows, k, q)
  {
    k := FirstFailure(sc, |sc.rows|);
    var s := sc.After(k).value;
    WritesAreTracked(sc, k);
    q := RefusedByHolder(sc, k, s);
    HolderWasStored(r, sc, k, q, s);
    StoredTeamIsPlanned(r, sc, k, s.people[q].teamID.value);
    StoredTarget(r, sc, k, q);
    NotYetWritten(sc, k, q);
    forall j | 0 <= j < k && Applies(sc.plans[j])
      ensures sc.plans[j].existingID != Some(q)
    {
      StoredTarget(r, sc, j, q);
    }
  }

  /** An import of a plan made on the current, valid state fails if and only if
      some row takes a leg that is still held, and then with the leg taken. */
  lemma {:induction false} ImportFailsIff(r: Run)
    requires r.Ready() && Valid(r.s)
    ensures r.Outcome().Err? <==> exists k, q :: LegStillHeld(r.s, r.batch.rows, PlanOf(r.batch).rows, k, q)
    ensures r.Outcome().Err? ==> r.Outcome().error == LegTaken
  {
    RunStarts(r);
    RunTeamsGoIn(r);
    PersonKeysStay(r.s, r.WithTeams().value);
    EveryWriteKeepsKeys(r, |r.batch.rows|);
    var sc := r.RowScript();
    if r.Outcome().Err? {
      var k, q := FailureMeansHeldLeg(r, sc);
    }
    if k, q :| LegStillHeld(r.s, r.batch.rows, PlanOf(r.batch).rows, k, q) {
      HolderIsUnwritten(r, sc, k, q);
      assert LegStillHeld(sc.state, sc.rows, sc.plans, k, q);
      StopsAt(sc, k, q);
    }
  }
}
