/** The import planner as it runs: maps filled in loops, a slice of row plans
    updated in place, a capacity counted down (internal/participant/import.go).
    Every method is proved against the declarative plan of ImportPlan. */
module ImportPlanner {
  import opened Wrappers
  import opened Registration
  import opened Text
  import opened TeamRules
  import opened ImportPlan

  // ---- the lookup maps

  ghost predicate IndexesBibs(byBib: map<int, Existing>, existing: seq<Existing>) {
    forall bib :: LastByBib(existing, bib) == if bib in byBib then Some(byBib[bib]) else None
  }

  ghost predicate IndexesRefs(byRef: map<string, Existing>, existing: seq<Existing>) {
    forall ref :: LastByRef(existing, ref) == if ref in byRef then Some(byRef[ref]) else None
  }

  ghost predicate IndexesTeams(byKey: map<string, ExistingTeam>, teams: seq<ExistingTeam>) {
    forall key :: LastByKey(teams, key) == if key in byKey then Some(byKey[key]) else None
  }

  ghost predicate CountsBibs(fileBibs: map<int, nat>, rows: seq<ImportRow>) {
    forall bib :: CountBib(rows, bib) == if bib in fileBibs then fileBibs[bib] else 0
  }

  ghost predicate CountsRefs(fileRefs: map<string, nat>, rows: seq<ImportRow>) {
    forall ref :: CountRef(rows, ref) == if ref in fileRefs then fileRefs[ref] else 0
  }

  method IndexExisting(existing: seq<Existing>) returns (byBib: map<int, Existing>, byRef: map<string, Existing>)
    ensures IndexesBibs(byBib, existing)
    ensures IndexesRefs(byRef, existing)
  {
    byBib, byRef := map[], map[];
    for k := 0 to |existing|
      invariant IndexesBibs(byBib, existing[..k])
      invariant IndexesRefs(byRef, existing[..k])
    {
      var e := existing[k];
      assert existing[..k + 1][..k] == existing[..k];
      byBib := byBib[e.bib := e];
      if e.refID.Some? {
        byRef := byRef[e.refID.value := e];
      }
    }
    assert existing[..|existing|] == existing;
  }

  method IndexTeams(teams: seq<ExistingTeam>) returns (byKey: map<string, ExistingTeam>)
    ensures IndexesTeams(byKey, teams)
  {
    byKey := map[];
    for k := 0 to |teams|
      invariant IndexesTeams(byKey, teams[..k])
    {
      assert teams[..k + 1][..k] == teams[..k];
      byKey := byKey[TeamKey(teams[k].raceID, teams[k].name) := teams[k]];
    }
    assert teams[..|teams|] == teams;
  }

  method CountFile(rows: seq<ImportRow>) returns (fileBibs: map<int, nat>, fileRefs: map<string, nat>)
    ensures CountsBibs(fileBibs, rows)
    ensures CountsRefs(fileRefs, rows)
  {
    fileBibs, fileRefs := map[], map[];
    for k := 0 to |rows|
      invariant CountsBibs(fileBibs, rows[..k])
      invariant CountsRefs(fileRefs, rows[..k])
    {
      var input := rows[k].input;
      assert rows[..k + 1][..k] == rows[..k];
      fileBibs := fileBibs[input.bib := 1 + if input.bib in fileBibs then fileBibs[input.bib] else 0];
      if input.refID.Some? {
        var ref := input.refID.value;
        fileRefs := fileRefs[ref := 1 + if ref in fileRefs then fileRefs[ref] else 0];
      }
    }
    assert rows[..|rows|] == rows;
  }

  // ---- pass 1

  /** The part of pass 1 before a row is matched. */
  method ScreenRow(batch: PlanInput, row: ImportRow, fileBibs: map<int, nat>, fileRefs: map<string, nat>)
    returns (issues: seq<Issue>)
    requires CountsBibs(fileBibs, batch.rows) && CountsRefs(fileRefs, batch.rows)
    ensures issues == Screen(batch, row)
  {
    issues := [];
    if row.badBloodType != "" {
      issues := issues + Warning(BloodTypeField);
    }
    assert issues == BloodIssues(row);
    if row.raceID !in batch.races {
      return issues + Error(RaceField);
    }
    var race := batch.races[row.raceID];
    var input := row.input;
    ghost var soFar := issues;
    if race.IsTeam() {
      input := input.(teamID := Some(PENDING_TEAM));
      if row.teamName == "" {
        issues := issues + Error(TeamNameField);
      }
    }
    assert issues == soFar + NameIssues(race, row);
    soFar := issues;
    var broken := Validate(input, race);
    if broken.Some? && !(race.IsTeam() && row.teamName == "" && broken.value == TeamIDField) {
      issues := issues + Error(broken.value);
    }
    assert issues == soFar + FieldIssues(race, row);
    soFar := issues;
    if row.input.bib > 0 && row.input.bib in fileBibs && fileBibs[row.input.bib] > 1 {
      issues := issues + Error(BibField);
    }
    assert issues == soFar + BibIssues(batch, row);
    soFar := issues;
    if row.input.refID.Some? && row.input.refID.value in fileRefs && fileRefs[row.input.refID.value] > 1 {
      issues := issues + Error(RefField);
    }
    assert issues == soFar + RefIssues(batch, row);
  }

  method JudgeRow(batch: PlanInput, i: nat, byBib: map<int, Existing>, byRef: map<string, Existing>,
                  fileBibs: map<int, nat>, fileRefs: map<string, nat>)
    returns (rp: RowPlan)
    requires i < |batch.rows|
    requires IndexesBibs(byBib, batch.existing) && IndexesRefs(byRef, batch.existing)
    requires CountsBibs(fileBibs, batch.rows) && CountsRefs(fileRefs, batch.rows)
    ensures rp == Judge(batch, i)
  {
    var row := batch.rows[i];
    rp := RowPlan(row.line, row.input.bib, FullName(row.input.details), Undecided, [], None, None);
    var issues := ScreenRow(batch, row, fileBibs, fileRefs);
    rp := rp.(issues := issues);
    if HasError(rp.issues) {
      rp := rp.(action := Rejected);
      return;
    }
    assert LastByBib(batch.existing, row.input.bib) == if row.input.bib in byBib then Some(byBib[row.input.bib]) else None;

    // ref_id first, BIB otherwise
    var found: Option<Existing> := None;
    var blocked := false;
    if row.input.refID.Some? {
      var ref := row.input.refID.value;
      assert LastByRef(batch.existing, ref) == if ref in byRef then Some(byRef[ref]) else None;
      if ref in byRef {
        var e := byRef[ref];
        found := Some(e);
        if e.bib != row.input.bib {
          if row.input.bib in byBib && byBib[row.input.bib].id != e.id {
            rp := rp.(issues := rp.issues + Error(BibField));
            blocked := true;
          } else {
            rp := rp.(issues := rp.issues + Warning(BibField));
          }
        }
      } else if row.input.bib in byBib {
        var other := byBib[row.input.bib];
        if other.refID.Some? {
          rp := rp.(issues := rp.issues + Error(BibField));
          blocked := true;
        } else {
          found := Some(other);
        }
      }
    } else if row.input.bib in byBib {
      found := Some(byBib[row.input.bib]);
    }
    if blocked {
      return rp.(action := Rejected);
    }
    assert issues + [] + Warning(BibField) == issues + Warning(BibField);

    if found.None? {
      rp := rp.(action := Create);
    } else if batch.updateExisting {
      rp := rp.(action := Update, existingID := Some(found.value.id), issues := rp.issues + Warning(BibField));
    } else {
      rp := rp.(action := Skip, existingID := Some(found.value.id), issues := rp.issues + Warning(BibField));
    }
  }

  // ---- pass 2

  /** The draft the rows make at the start of pass 2. */
  ghost function DraftFrom(batch: PlanInput, judged: seq<RowPlan>): (d: Draft)
    requires |judged| == |batch.rows|
    ensures |d.entries| == |batch.rows|
  {
    Draft(batch.races, batch.teams, seq(|judged|, i requires 0 <= i < |judged| => Entry(batch.rows[i], judged[i])))
  }

  function Longer(idx: seq<nat>, i: nat): seq<nat> {
    idx + [i]
  }

  function WithRow<K(==)>(groups: map<K, seq<nat>>, key: K, i: nat): map<K, seq<nat>> {
    groups[key := Longer(if key in groups then groups[key] else [], i)]
  }

  /** Opening an empty group first changes nothing. */
  lemma {:induction false} AppendedEither<K>(before: map<K, seq<nat>>, after: map<K, seq<nat>>, key: K, i: nat)
    requires key in before ==> after == before[key := Longer(before[key], i)]
    requires key !in before ==> after == before[key := []][key := Longer([], i)]
    ensures after == WithRow(before, key, i)
  {
    if key !in before {
      forall k | k in after
        ensures after[k] == WithRow(before, key, i)[k]
      {
        assert k == key ==> after[k] == Longer([], i);
      }
    }
  }

  /** The key under which each row joins a team, if it does. */
  ghost function JoiningKeys(d: Draft): (ats: seq<Option<string>>)
    ensures |ats| == |d.entries|
    ensures forall i :: 0 <= i < |ats| ==> ats[i] == if Joins(d.races, d.entries[i]) then Some(KeyOf(d.entries[i])) else None
  {
    seq(|d.entries|, i requires 0 <= i < |d.entries| => if Joins(d.races, d.entries[i]) then Some(KeyOf(d.entries[i])) else None)
  }

  /** The groups, the keys and one key's group among the first n rows. */
  ghost function GroupsAt<K>(ats: seq<Option<K>>, n: nat): map<K, seq<nat>>
    requires n <= |ats|
  {
    if n == 0 then map[]
    else if ats[n - 1].None? then GroupsAt(ats, n - 1)
    else WithRow(GroupsAt(ats, n - 1), ats[n - 1].value, n - 1)
  }

  ghost function KeysAt<K>(ats: seq<Option<K>>, n: nat): seq<K>
    requires n <= |ats|
  {
    if n == 0 then []
    else KeysAt(ats, n - 1) + if ats[n - 1].Some? && ats[n - 1].value !in KeysAt(ats, n - 1) then [ats[n - 1].value] else []
  }

  ghost function GroupAt<K>(ats: seq<Option<K>>, key: K, n: nat): seq<nat>
    requires n <= |ats|
  {
    if n == 0 then [] else GroupAt(ats, key, n - 1) + if ats[n - 1] == Some(key) then [n - 1] else []
  }

  lemma {:induction false} KeysAreTheDrafts(d: Draft, n: nat)
    requires n <= |d.entries|
    ensures KeysAt(JoiningKeys(d), n) == KeysUpTo(d, n)
  {
    if n > 0 {
      KeysAreTheDrafts(d, n - 1);
    }
  }

  lemma {:induction false} GroupIsTheDrafts(d: Draft, key: string, n: nat)
    requires n <= |d.entries|
    ensures GroupAt(JoiningKeys(d), key, n) == GroupUpTo(d, key, n)
  {
    if n > 0 {
      GroupIsTheDrafts(d, key, n - 1);
      assert JoinsTeam(d, n - 1, key) <==> JoiningKeys(d)[n - 1] == Some(key);
    }
  }

  ghost predicate OwnGroup<K>(groups: map<K, seq<nat>>, keys: seq<K>, own: seq<nat>, key: K) {
    (key in groups <==> key in keys) && own == if key in groups then groups[key] else []
  }

  /** A key has a group exactly when some row joins its team, and the group lists those rows. */
  lemma {:induction false} GroupsAreExact<K>(ats: seq<Option<K>>, n: nat, key: K)
    requires n <= |ats|
    ensures OwnGroup(GroupsAt(ats, n), KeysAt(ats, n), GroupAt(ats, key, n), key)
  {
    if n > 0 {
      GroupsAreExact(ats, n - 1, key);
      NextRow(ats, n - 1, key);
    }
  }

  /** One more row, in the team `at` or in none, seen from one key. */
  lemma {:induction false} OneMoreRow<K>(groups: map<K, seq<nat>>, keys: seq<K>, own: seq<nat>,
                                         groups': map<K, seq<nat>>, keys': seq<K>, own': seq<nat>,
                                         at: Option<K>, i: nat, key: K)
    requires OwnGroup(groups, keys, own, key)
    requires groups' == if at.Some? then WithRow(groups, at.value, i) else groups
    requires keys' == keys + if at.Some? && at.value !in keys then [at.value] else []
    requires own' == own + if at == Some(key) then [i] else []
    ensures OwnGroup(groups', keys', own', key)
  {
  }

  lemma {:induction false} NextRow<K>(ats: seq<Option<K>>, n: nat, key: K)
    requires n < |ats| && OwnGroup(GroupsAt(ats, n), KeysAt(ats, n), GroupAt(ats, key, n), key)
    ensures OwnGroup(GroupsAt(ats, n + 1), KeysAt(ats, n + 1), GroupAt(ats, key, n + 1), key)
  {
    var groups, keys, own := GroupsAt(ats, n), KeysAt(ats, n), GroupAt(ats, key, n);
    OneMoreRow(groups, keys, own, if ats[n].Some? then WithRow(groups, ats[n].value, n) else groups,
               keys + if ats[n].Some? && ats[n].value !in keys then [ats[n].value] else [],
               own + if ats[n] == Some(key) then [n] else [], ats[n], n, key);
  }

  lemma {:induction false} AllGroupsAreExact(d: Draft)
    ensures KeysAt(JoiningKeys(d), |d.entries|) == Keys(d)
    ensures forall key :: key in GroupsAt(JoiningKeys(d), |d.entries|) <==> key in Keys(d)
    ensures forall key :: key in Keys(d) ==> GroupsAt(JoiningKeys(d), |d.entries|)[key] == Group(d, key)
  {
    KeysAreTheDrafts(d, |d.entries|);
    forall key
      ensures key in GroupsAt(JoiningKeys(d), |d.entries|) <==> key in Keys(d)
      ensures key in Keys(d) ==> GroupsAt(JoiningKeys(d), |d.entries|)[key] == Group(d, key)
    {
      GroupsAreExact(JoiningKeys(d), |d.entries|, key);
      GroupIsTheDrafts(d, key, |d.entries|);
    }
  }

  lemma {:induction false} RowJoinsGroup<K>(ats: seq<Option<K>>, n: nat, key: K)
    requires n < |ats| && ats[n] == Some(key)
    ensures GroupsAt(ats, n + 1) == WithRow(GroupsAt(ats, n), key, n)
    ensures KeysAt(ats, n + 1) == if key in GroupsAt(ats, n) then KeysAt(ats, n) else KeysAt(ats, n) + [key]
  {
    GroupsAreExact(ats, n, key);
  }

  lemma RowPassesBy<K>(ats: seq<Option<K>>, n: nat)
    requires n < |ats| && ats[n].None?
    ensures GroupsAt(ats, n + 1) == GroupsAt(ats, n) && KeysAt(ats, n + 1) == KeysAt(ats, n)
  {
  }

  /** Sorts the joining rows into groups by key; the keys keep the order in which they
      first turned up. */
  method GroupRows(batch: PlanInput, rows: array<RowPlan>, ghost d: Draft)
    returns (groups: map<string, seq<nat>>, order: seq<string>)
    requires d.races == batch.races && rows.Length == |batch.rows| == |d.entries|
    requires forall i :: 0 <= i < |d.entries| ==> d.entries[i] == Entry(batch.rows[i], rows[i])
    ensures order == Keys(d)
    ensures forall key :: key in groups <==> key in order
    ensures forall key :: key in groups ==> groups[key] == Group(d, key)
  {
    groups, order := map[], [];
    ghost var ats := JoiningKeys(d);
    for i := 0 to rows.Length
      invariant groups == GroupsAt(ats, i) && order == KeysAt(ats, i)
    {
      var row := batch.rows[i];
      assert d.entries[i] == Entry(row, rows[i]);
      ghost var was := groups;
      if Applies(rows[i]) && row.raceID in batch.races && batch.races[row.raceID].IsTeam() && row.teamName != "" {
        var key := TeamKey(row.raceID, row.teamName);
        if key !in groups {
          order := order + [key];
          groups := groups[key := []];
        }
        var own: seq<nat> := groups[key];
        groups := groups[key := Longer(own, i)];
        AppendedEither(was, groups, key, i);
        RowJoinsGroup(ats, i, key);
      } else {
        RowPassesBy(ats, i);
      }
    }
    AllGroupsAreExact(d);
  }

  /** The rows array and the draft speak of the same file. */
  ghost predicate Drafts(d: Draft, batch: PlanInput) {
    && d.races == batch.races
    && d.teams == batch.teams
    && |d.entries| == |batch.rows|
    && forall i :: 0 <= i < |d.entries| ==> d.entries[i].row == batch.rows[i]
  }

  ghost predicate Judged(d: Draft, rows: seq<RowPlan>, idx: seq<nat>) {
    && |rows| == |d.entries|
    && forall k :: 0 <= k < |idx| ==> idx[k] < |rows| && rows[idx[k]] == d.entries[idx[k]].judged
  }

  /** Only the rows a list names differ. */
  ghost predicate OnlyChanged(before: seq<RowPlan>, after: seq<RowPlan>, idx: seq<nat>) {
    |before| == |after| && forall i :: 0 <= i < |before| && i !in idx ==> before[i] == after[i]
  }

  method PickCategory(batch: PlanInput, idx: seq<nat>, ghost d: Draft) returns (category: Category)
    requires Drafts(d, batch)
    requires forall k :: 0 <= k < |idx| ==> idx[k] < |batch.rows|
    ensures category == StatedCategory(d, idx)
  {
    category := BlankCategory;
    for k := 0 to |idx|
      invariant StatedCategory(d, idx) == StatedCategory(d, idx[k..])
    {
      assert idx[k..][1..] == idx[k + 1..];
      if batch.rows[idx[k]].teamCategory != BlankCategory {
        return batch.rows[idx[k]].teamCategory;
      }
    }
  }

  /** The rows after the first n listed ones got their own further issues. */
  ghost function WithIssues(before: seq<RowPlan>, idx: seq<nat>, extra: seq<seq<Issue>>, n: nat): (after: seq<RowPlan>)
    requires n <= |idx| == |extra|
    requires forall k :: 0 <= k < |idx| ==> idx[k] < |before|
    ensures |after| == |before|
  {
    if n == 0 then before
    else
      var rows := WithIssues(before, idx, extra, n - 1);
      rows[idx[n - 1] := rows[idx[n - 1]].(issues := rows[idx[n - 1]].issues + extra[n - 1])]
  }

  lemma {:induction false} WithIssuesIsExact(before: seq<RowPlan>, idx: seq<nat>, extra: seq<seq<Issue>>, n: nat)
    requires n <= |idx| == |extra|
    requires forall k :: 0 <= k < |idx| ==> idx[k] < |before|
    requires forall j, k :: 0 <= j < k < |idx| ==> idx[j] < idx[k]
    ensures var after := WithIssues(before, idx, extra, n);
            && (forall k :: 0 <= k < n ==> after[idx[k]] == before[idx[k]].(issues := before[idx[k]].issues + extra[k]))
            && (forall i :: 0 <= i < |before| && i !in idx[..n] ==> after[i] == before[i])
  {
    if n > 0 {
      WithIssuesIsExact(before, idx, extra, n - 1);
      assert idx[..n] == idx[..n - 1] + [idx[n - 1]];
      assert idx[n - 1] !in idx[..n - 1];
    }
  }

  /** Every listed row got the error, and no other row changed. */
  ghost predicate TurnedAway(before: seq<RowPlan>, after: seq<RowPlan>, idx: seq<nat>, f: Field) {
    && |after| == |before|
    && forall i :: 0 <= i < |before| ==>
         after[i] == if i in idx then before[i].(issues := before[i].issues + Error(f)) else before[i]
  }

  method RejectAll(rows: array<RowPlan>, idx: seq<nat>, f: Field)
    requires forall k :: 0 <= k < |idx| ==> idx[k] < rows.Length
    requires forall j, k :: 0 <= j < k < |idx| ==> idx[j] < idx[k]
    modifies rows
    ensures TurnedAway(old(rows[..]), rows[..], idx, f)
  {
    for k := 0 to |idx|
      invariant TurnedAway(old(rows[..]), rows[..], idx[..k], f)
    {
      assert idx[..k + 1] == idx[..k] + [idx[k]];
      assert idx[k] !in idx[..k];
      rows[idx[k]] := rows[idx[k]].(issues := rows[idx[k]].issues + Error(f));
    }
    assert idx[..|idx|] == idx;
  }

  /** The members of the team that the group's rows do not re-register. */
  method StayingMembers(rows: array<RowPlan>, idx: seq<nat>, members: seq<Existing>, ghost d: Draft)
    returns (staying: seq<Existing>)
    requires Judged(d, rows[..], idx)
    ensures staying == Without(members, Reregistered(d, idx))
  {
    var importing: set<string> := {};
    for k := 0 to |idx|
      invariant importing == Reregistered(d, idx[..k])
    {
      var id := rows[idx[k]].existingID;
      assert idx[..k + 1] == idx[..k] + [idx[k]];
      if id.Some? {
        importing := importing + {id.value};
      }
    }
    assert idx[..|idx|] == idx;
    staying := [];
    for k := 0 to |members|
      invariant staying == Without(members[..k], importing)
    {
      assert members[..k + 1][..k] == members[..k];
      if members[k].id !in importing {
        staying := staying + [members[k]];
      }
    }
    assert members[..|members|] == members;
  }

  method LegsOf(members: seq<Existing>) returns (usedLegs: set<int>)
    ensures forall leg :: leg in usedLegs <==> HoldsLeg(members, leg)
  {
    usedLegs := {};
    for k := 0 to |members|
      invariant forall leg :: leg in usedLegs <==> HoldsLeg(members[..k], leg)
    {
      assert members[..k + 1] == members[..k] + [members[k]];
      if members[k].legOrder.Some? {
        usedLegs := usedLegs + {members[k].legOrder.value};
      }
    }
    assert members[..|members|] == members;
  }

  /** One try for a seat: the leg must be free and a place left. */
  method TrySeat(leg: Option<int>, usedLegs: set<int>, capacity: int) returns (verdict: seq<Issue>, legs: set<int>)
    ensures verdict == VerdictNow(leg, usedLegs, capacity)
    ensures HasError(verdict) <==> verdict != []
    ensures legs == usedLegs + if leg.Some? then {leg.value} else {}
  {
    verdict, legs := [], usedLegs;
    if leg.Some? {
      if leg.value in usedLegs {
        verdict := verdict + Error(LegField);
      }
      legs := legs + {leg.value};
    }
    if capacity <= 0 {
      verdict := verdict + Error(TeamNameField);
    }
    assert verdict != [] ==> verdict[0].level == ErrorLevel;
  }

  ghost predicate LegsInUse(usedLegs: set<int>, d: Draft, staying: seq<Existing>, idx: seq<nat>)
    requires forall k :: 0 <= k < |idx| ==> idx[k] < |d.entries|
  {
    forall leg :: leg in usedLegs <==> HoldsLeg(staying, leg) || AsksLeg(d, idx, leg)
  }

  /** The legs in use grow by the leg a row asks for. */
  lemma {:induction false} LegsGrow(d: Draft, staying: seq<Existing>, idx: seq<nat>, j: nat, before: set<int>, after: set<int>)
    requires j < |idx|
    requires forall k :: 0 <= k < |idx| ==> idx[k] < |d.entries|
    requires LegsInUse(before, d, staying, idx[..j])
    requires var leg := d.entries[idx[j]].row.input.legOrder; after == before + if leg.Some? then {leg.value} else {}
    ensures LegsInUse(after, d, staying, idx[..j + 1])
  {
    forall leg
      ensures AsksLeg(d, idx[..j + 1], leg) <==>
              AsksLeg(d, idx[..j], leg) || d.entries[idx[j]].row.input.legOrder == Some(leg)
    {
      assert idx[..j + 1] == idx[..j] + [idx[j]];
      assert idx[..j + 1][j] == idx[j];
      assert forall k :: 0 <= k < j ==> idx[..j + 1][k] == idx[..j][k];
    }
  }

  /** A listed row whose turn has not come is as it was. */
  lemma {:induction false} TurnNotCome(before: seq<RowPlan>, idx: seq<nat>, extra: seq<seq<Issue>>, j: nat)
    requires j < |idx| == |extra|
    requires forall k :: 0 <= k < |idx| ==> idx[k] < |before|
    requires forall j, k :: 0 <= j < k < |idx| ==> idx[j] < idx[k]
    ensures WithIssues(before, idx, extra, j)[idx[j]] == before[idx[j]]
  {
    WithIssuesIsExact(before, idx, extra, j);
    assert idx[j] !in idx[..j];
  }

  /** What the seats given to the first j listed rows left behind. */
  ghost predicate SeatsGiven(d: Draft, idx: seq<nat>, staying: seq<Existing>, size: int, j: nat,
                             usedLegs: set<int>, accepted: seq<nat>, genders: seq<Gender>)
    requires j <= |idx| && forall k :: 0 <= k < |idx| ==> idx[k] < |d.entries|
  {
    && LegsInUse(usedLegs, d, staying, idx[..j])
    && accepted == Clean(idx, VerdictsFor(d, idx, staying, size), j)
    && genders == GendersOfMembers(staying) + GendersOfRows(d, accepted)
  }

  /** The verdict on one row from the legs in use and the places left. */
  function VerdictNow(leg: Option<int>, usedLegs: set<int>, capacity: int): seq<Issue> {
    (if leg.Some? && leg.value in usedLegs then Error(LegField) else [])
    + (if capacity <= 0 then Error(TeamNameField) else [])
  }

  /** Giving out one more seat. */
  lemma {:induction false} OneMoreSeat(d: Draft, idx: seq<nat>, staying: seq<Existing>, size: int, j: nat,
                    usedLegs: set<int>, legs: set<int>, accepted: seq<nat>, genders: seq<Gender>)
    requires j < |idx| && forall k :: 0 <= k < |idx| ==> idx[k] < |d.entries|
    requires SeatsGiven(d, idx, staying, size, j, usedLegs, accepted, genders)
    requires var leg := d.entries[idx[j]].row.input.legOrder; legs == usedLegs + if leg.Some? then {leg.value} else {}
    ensures var input, verdict := d.entries[idx[j]].row.input, VerdictsFor(d, idx, staying, size)[j];
            && verdict == VerdictNow(input.legOrder, usedLegs, size - |staying| - j)
            && (verdict == [] ==> SeatsGiven(d, idx, staying, size, j + 1, legs, accepted + [idx[j]], genders + [input.gender]))
            && (verdict != [] ==> SeatsGiven(d, idx, staying, size, j + 1, legs, accepted, genders))
  {
    LegsGrow(d, staying, idx, j, usedLegs, legs);
    assert GendersOfRows(d, accepted + [idx[j]]) == GendersOfRows(d, accepted) + [d.entries[idx[j]].row.input.gender];
  }

  /** One row tries for a seat. */
  method SeatRow(batch: PlanInput, rows: array<RowPlan>, i: nat, usedLegs: set<int>, capacity: int)
    returns (accepted: bool, legs: set<int>, ghost verdict: seq<Issue>)
    requires i < |batch.rows| == rows.Length && !HasError(rows[i].issues)
    modifies rows
    ensures var leg := batch.rows[i].input.legOrder;
            && verdict == VerdictNow(leg, usedLegs, capacity)
            && legs == usedLegs + if leg.Some? then {leg.value} else {}
    ensures accepted <==> verdict == []
    ensures rows[..] == old(rows[..])[i := old(rows[i]).(issues := old(rows[i]).issues + verdict)]
  {
    var v;
    v, legs := TrySeat(batch.rows[i].input.legOrder, usedLegs, capacity);
    HasErrorOfSum(rows[i].issues, v);
    rows[i] := rows[i].(issues := rows[i].issues + v);
    verdict := v;
    accepted := !HasError(rows[i].issues);
  }

  lemma {:induction false} WithIssuesNext(before: seq<RowPlan>, idx: seq<nat>, extra: seq<seq<Issue>>, j: nat, now: seq<RowPlan>, next: seq<RowPlan>)
    requires j < |idx| == |extra| && forall k :: 0 <= k < |idx| ==> idx[k] < |before|
    requires now == WithIssues(before, idx, extra, j)
    requires next == now[idx[j] := now[idx[j]].(issues := now[idx[j]].issues + extra[j])]
    ensures next == WithIssues(before, idx, extra, j + 1)
  {
  }

  /** The first j listed rows have had their turn. */
  ghost predicate Seating(d: Draft, idx: seq<nat>, staying: seq<Existing>, size: int, before: seq<RowPlan>, j: nat, capacity: int,
                          usedLegs: set<int>, accepted: seq<nat>, genders: seq<Gender>, now: seq<RowPlan>)
    requires j <= |idx| && forall k :: 0 <= k < |idx| ==> idx[k] < |d.entries| && idx[k] < |before|
  {
    && capacity == size - |staying| - j
    && SeatsGiven(d, idx, staying, size, j, usedLegs, accepted, genders)
    && now == WithIssues(before, idx, VerdictsFor(d, idx, staying, size), j)
  }

  /** The row whose turn it is is as it was. */
  lemma {:induction false} TurnComes(d: Draft, idx: seq<nat>, staying: seq<Existing>, size: int, before: seq<RowPlan>, j: nat, capacity: int,
                                     usedLegs: set<int>, accepted: seq<nat>, genders: seq<Gender>, now: seq<RowPlan>)
    requires j < |idx| && forall k :: 0 <= k < |idx| ==> idx[k] < |d.entries| && idx[k] < |before|
    requires forall j, k :: 0 <= j < k < |idx| ==> idx[j] < idx[k]
    requires Seating(d, idx, staying, size, before, j, capacity, usedLegs, accepted, genders, now)
    requires forall k :: 0 <= k < |idx| ==> !HasError(before[idx[k]].issues)
    ensures |now| == |before| && !HasError(now[idx[j]].issues)
  {
    TurnNotCome(before, idx, VerdictsFor(d, idx, staying, size), j);
  }

  lemma {:induction false} TurnTaken(d: Draft, idx: seq<nat>, staying: seq<Existing>, size: int, before: seq<RowPlan>, j: nat, capacity: int,
                                     usedLegs: set<int>, legs: set<int>, accepted: seq<nat>, genders: seq<Gender>,
                                     now: seq<RowPlan>, next: seq<RowPlan>, input: Input, verdict: seq<Issue>)
    requires j < |idx| && forall k :: 0 <= k < |idx| ==> idx[k] < |d.entries| && idx[k] < |before|
    requires Seating(d, idx, staying, size, before, j, capacity, usedLegs, accepted, genders, now)
    requires input == d.entries[idx[j]].row.input && verdict == VerdictNow(input.legOrder, usedLegs, capacity)
    requires legs == usedLegs + if input.legOrder.Some? then {input.legOrder.value} else {}
    requires next == now[idx[j] := now[idx[j]].(issues := now[idx[j]].issues + verdict)]
    ensures verdict == [] ==>
              Seating(d, idx, staying, size, before, j + 1, capacity - 1, legs, accepted + [idx[j]],
                      genders + [input.gender], next)
    ensures verdict != [] ==> Seating(d, idx, staying, size, before, j + 1, capacity - 1, legs, accepted, genders, next)
  {
    OneMoreSeat(d, idx, staying, size, j, usedLegs, legs, accepted, genders);
    WithIssuesNext(before, idx, VerdictsFor(d, idx, staying, size), j, now, next);
  }

  /** Gives out seats in file order, counting the free places down. */
  method SeatRows(batch: PlanInput, rows: array<RowPlan>, idx: seq<nat>, staying: seq<Existing>, size: int, ghost d: Draft)
    returns (accepted: seq<nat>, genders: seq<Gender>)
    requires Drafts(d, batch) && rows.Length == |batch.rows|
    requires forall j, k :: 0 <= j < k < |idx| ==> idx[j] < idx[k]
    requires forall k :: 0 <= k < |idx| ==> idx[k] < rows.Length && !HasError(rows[idx[k]].issues)
    modifies rows
    ensures accepted == Clean(idx, VerdictsFor(d, idx, staying, size), |idx|)
    ensures genders == GendersOfMembers(staying) + GendersOfRows(d, accepted)
    ensures rows[..] == WithIssues(old(rows[..]), idx, VerdictsFor(d, idx, staying, size), |idx|)
  {
    var usedLegs := LegsOf(staying);
    var capacity := size - |staying|;
    genders := GendersOfMembers(staying);
    accepted := [];
    ghost var before := rows[..];
    for j := 0 to |idx|
      invariant Seating(d, idx, staying, size, before, j, capacity, usedLegs, accepted, genders, rows[..])
    {
      var i := idx[j];
      ghost var usedBefore, now := usedLegs, rows[..];
      TurnComes(d, idx, staying, size, before, j, capacity, usedLegs, accepted, genders, now);
      var ok;
      ghost var verdict;
      ok, usedLegs, verdict := SeatRow(batch, rows, i, usedLegs, capacity);
      TurnTaken(d, idx, staying, size, before, j, capacity, usedBefore, usedLegs, accepted, genders, now, rows[..],
                batch.rows[i].input, verdict);
      capacity := capacity - 1;
      if ok {
        accepted := accepted + [i];
        genders := genders + [batch.rows[i].input.gender];
      }
    }
  }

  /** Puts the listed rows in a team. */
  method AssignTeam(rows: array<RowPlan>, idx: seq<nat>, ref: TeamRef)
    requires forall k :: 0 <= k < |idx| ==> idx[k] < rows.Length
    modifies rows
    ensures forall i :: 0 <= i < rows.Length ==>
              rows[i] == if i in idx then old(rows[i]).(team := Some(ref)) else old(rows[i])
  {
    for k := 0 to |idx|
      invariant forall i :: 0 <= i < rows.Length ==>
                  rows[i] == if i in idx[..k] then old(rows[i]).(team := Some(ref)) else old(rows[i])
    {
      assert idx[..k + 1] == idx[..k] + [idx[k]];
      rows[idx[k]] := rows[idx[k]].(team := Some(ref));
    }
    assert idx[..|idx|] == idx;
  }

  ghost predicate SeatsTaken(d: Draft, key: string, rows: seq<RowPlan>)
    requires |rows| == |d.entries|
  {
    forall k :: 0 <= k < |Group(d, key)| ==> rows[Group(d, key)[k]] == Seat(d, key, k)
  }

  /** What is known of one row of a group once the seats are given out. */
  lemma {:induction false} TriedRow(d: Draft, key: string, before: seq<RowPlan>, k: nat)
    requires Judged(d, before, Group(d, key)) && k < |Group(d, key)|
    ensures var idx, verdicts := Group(d, key), Verdicts(d, key);
            var rp := d.entries[idx[k]].judged;
            && (idx[k] in Seated(d, key) <==> verdicts[k] == [])
            && WithIssues(before, idx, verdicts, |idx|)[idx[k]] == rp.(issues := rp.issues + verdicts[k])
  {
    var idx, verdicts := Group(d, key), Verdicts(d, key);
    GroupIsExact(d, key, |d.entries|);
    WithIssuesIsExact(before, idx, verdicts, |idx|);
    CleanIsExact(idx, verdicts, k, |idx|);
  }

  lemma {:induction false} OnlyListedTried(before: seq<RowPlan>, idx: seq<nat>, verdicts: seq<seq<Issue>>)
    requires |idx| == |verdicts|
    requires forall k :: 0 <= k < |idx| ==> idx[k] < |before|
    requires forall j, k :: 0 <= j < k < |idx| ==> idx[j] < idx[k]
    ensures OnlyChanged(before, WithIssues(before, idx, verdicts, |idx|), idx)
  {
    WithIssuesIsExact(before, idx, verdicts, |idx|);
    assert idx[..|idx|] == idx;
  }

  lemma {:induction false} OnlyGroupTried(d: Draft, key: string, before: seq<RowPlan>)
    requires Judged(d, before, Group(d, key))
    ensures OnlyChanged(before, WithIssues(before, Group(d, key), Verdicts(d, key), |Group(d, key)|), Group(d, key))
    ensures forall j, k :: 0 <= j < k < |Seated(d, key)| ==> Seated(d, key)[j] < Seated(d, key)[k]
    ensures forall i :: i in Seated(d, key) ==> i in Group(d, key)
  {
    var idx := Group(d, key);
    GroupIsExact(d, key, |d.entries|);
    OnlyListedTried(before, idx, Verdicts(d, key));
    CleanAscends(idx, Verdicts(d, key), |idx|);
    assert idx[..|idx|] == idx;
  }

  /** The first seated row is the one before which nobody is seated. */
  lemma {:induction false} FirstSeated(d: Draft, key: string, k: nat)
    requires k < |Group(d, key)| && Verdicts(d, key)[k] == []
    ensures Seated(d, key) != []
    ensures Clean(Group(d, key), Verdicts(d, key), k) == [] <==> Group(d, key)[k] == Seated(d, key)[0]
  {
    var idx, verdicts := Group(d, key), Verdicts(d, key);
    GroupIsExact(d, key, |d.entries|);
    CleanAscends(idx, verdicts, |idx|);
    CleanKeepsPlaces(idx, verdicts, k, |idx|);
    var before := Clean(idx, verdicts, k);
    assert Seated(d, key)[|before|] == (before + [idx[k]])[|before|];
  }

  /** Nobody got a seat. */
  lemma {:induction false} SeatsWhenNobody(d: Draft, key: string, before: seq<RowPlan>)
    requires Judged(d, before, Group(d, key)) && Seatable(d, key) && Seated(d, key) == []
    ensures SeatsTaken(d, key, WithIssues(before, Group(d, key), Verdicts(d, key), |Group(d, key)|))
    ensures OnlyChanged(before, WithIssues(before, Group(d, key), Verdicts(d, key), |Group(d, key)|), Group(d, key))
  {
    OnlyGroupTried(d, key, before);
    forall k | 0 <= k < |Group(d, key)|
      ensures WithIssues(before, Group(d, key), Verdicts(d, key), |Group(d, key)|)[Group(d, key)[k]] == Seat(d, key, k)
    {
      TriedRow(d, key, before, k);
    }
  }

  /** The seated rows' genders clash: they are turned away. */
  lemma {:induction false} SeatsWhenClash(d: Draft, key: string, before: seq<RowPlan>, tried: seq<RowPlan>, after: seq<RowPlan>)
    requires Judged(d, before, Group(d, key)) && Seatable(d, key) && GroupComposition(d, key) == Clash
    requires tried == WithIssues(before, Group(d, key), Verdicts(d, key), |Group(d, key)|)
    requires TurnedAway(tried, after, Seated(d, key), GenderField)
    ensures SeatsTaken(d, key, after) && OnlyChanged(before, after, Group(d, key))
  {
    OnlyGroupTried(d, key, before);
    forall k | 0 <= k < |Group(d, key)|
      ensures after[Group(d, key)[k]] == Seat(d, key, k)
    {
      TriedRow(d, key, before, k);
    }
  }

  /** The seated rows join, the first of them with the remarks. */
  lemma {:induction false} SeatsWhenForms(d: Draft, key: string, before: seq<RowPlan>, tried: seq<RowPlan>, after: seq<RowPlan>)
    requires Judged(d, before, Group(d, key)) && Forms(d, key)
    requires tried == WithIssues(before, Group(d, key), Verdicts(d, key), |Group(d, key)|)
    requires Enrolled(tried, after, Seated(d, key), Remarks(d, key), RefOf(d, key))
    ensures SeatsTaken(d, key, after) && OnlyChanged(before, after, Group(d, key))
  {
    var idx, seated := Group(d, key), Seated(d, key);
    OnlyGroupTried(d, key, before);
    forall k | 0 <= k < |idx|
      ensures after[idx[k]] == Seat(d, key, k)
    {
      TriedRow(d, key, before, k);
      if idx[k] in seated {
        FirstSeated(d, key, k);
      }
    }
  }

  /** The listed rows got the team, the first of them with the remarks. */
  ghost predicate Enrolled(before: seq<RowPlan>, after: seq<RowPlan>, idx: seq<nat>, remarks: seq<Issue>, ref: TeamRef)
    requires idx != []
  {
    && |after| == |before|
    && forall i :: 0 <= i < |after| ==>
         after[i] == if i !in idx then before[i]
                     else before[i].(issues := before[i].issues + (if i == idx[0] then remarks else []), team := Some(ref))
  }

  /** Puts the seated rows in their team. */
  method Enrol(rows: array<RowPlan>, accepted: seq<nat>, remarks: seq<Issue>, ref: TeamRef)
    requires accepted != [] && forall k :: 0 <= k < |accepted| ==> accepted[k] < rows.Length
    modifies rows
    ensures Enrolled(old(rows[..]), rows[..], accepted, remarks, ref)
  {
    var first := accepted[0];
    rows[first] := rows[first].(issues := rows[first].issues + remarks);
    AssignTeam(rows, accepted, ref);
    forall i | 0 <= i < rows.Length && i != first
      ensures rows[i].issues == old(rows[i]).issues + []
    {
    }
  }

  /** A group whose team exists or can be created, once the seats are given
      out: a clash turns the seated rows away, otherwise they get the team. */
  method ConfirmGroup(rows: array<RowPlan>, accepted: seq<nat>, staying: seq<Existing>, size: int,
                      category: Category, genders: seq<Gender>, ref: TeamRef,
                      ghost before: seq<RowPlan>, ghost d: Draft, ghost key: string)
    returns (forms: bool)
    requires |before| == rows.Length && Judged(d, before, Group(d, key))
    requires Seatable(d, key)
    requires rows[..] == WithIssues(before, Group(d, key), Verdicts(d, key), |Group(d, key)|)
    requires accepted == Seated(d, key) && staying == Staying(d, key) && size == SizeOf(d, key)
    requires category == CategoryOf(d, key) && genders == TeamGenders(d, key) && ref == RefOf(d, key)
    modifies rows
    ensures forms == Forms(d, key)
    ensures SeatsTaken(d, key, rows[..])
    ensures OnlyChanged(before, rows[..], Group(d, key))
  {
    ghost var tried := rows[..];
    if accepted == [] {
      SeatsWhenNobody(d, key, before);
      return false;
    }
    var c := CheckTeamComposition(category, size, genders);
    if c == Clash {
      OnlyGroupTried(d, key, before);
      RejectAll(rows, accepted, GenderField);
      SeatsWhenClash(d, key, before, tried, rows[..]);
      return false;
    }
    var remarks := (if c == Incomplete then Warning(GenderField) else [])
                   + (if |staying| + |accepted| < size then Warning(TeamNameField) else []);
    Enrol(rows, accepted, remarks, ref);
    SeatsWhenForms(d, key, before, tried, rows[..]);
    return true;
  }

  /** No team exists and none can be created: every row is turned away. */
  lemma SeatsWhenUnseatable(d: Draft, key: string, before: seq<RowPlan>, after: seq<RowPlan>)
    requires Judged(d, before, Group(d, key)) && !Seatable(d, key)
    requires TurnedAway(before, after, Group(d, key), TeamCategoryField)
    ensures SeatsTaken(d, key, after) && OnlyChanged(before, after, Group(d, key))
  {
  }

  /** Gives out the seats of a group that can be seated, and confirms them. */
  method FillGroup(batch: PlanInput, rows: array<RowPlan>, idx: seq<nat>, category: Category, members: seq<Existing>, ref: TeamRef,
                   size: int, ghost d: Draft, ghost key: string)
    returns (forms: bool)
    requires Drafts(d, batch) && Sound(d)
    requires idx == Group(d, key) && Judged(d, rows[..], idx) && Seatable(d, key)
    requires category == CategoryOf(d, key) && size == SizeOf(d, key) && ref == RefOf(d, key)
    requires Without(members, Reregistered(d, idx)) == Staying(d, key)
    modifies rows
    ensures forms == Forms(d, key)
    ensures SeatsTaken(d, key, rows[..])
    ensures OnlyChanged(old(rows[..]), rows[..], idx)
  {
    ghost var before := rows[..];
    GroupIsExact(d, key, |d.entries|);
    var staying := StayingMembers(rows, idx, members, d);
    var accepted, genders := SeatRows(batch, rows, idx, staying, size, d);
    forms := ConfirmGroup(rows, accepted, staying, size, category, genders, ref, before, d, key);
  }

  /** Settles one group: its seats, its genders, its team. */
  method SeatGroup(batch: PlanInput, rows: array<RowPlan>, byKey: map<string, ExistingTeam>, key: string, idx: seq<nat>,
                   ghost d: Draft)
    returns (created: seq<PlannedTeam>)
    requires Drafts(d, batch) && Sound(d) && IndexesTeams(byKey, batch.teams)
    requires idx == Group(d, key) && idx != [] && Judged(d, rows[..], idx)
    modifies rows
    ensures SeatsTaken(d, key, rows[..])
    ensures OnlyChanged(old(rows[..]), rows[..], idx)
    ensures created == if CreatesTeam(d, key) then [PlannedTeamOf(d, key)] else []
  {
    var first := batch.rows[idx[0]];
    var size := RaceSize(batch.races, first.raceID);
    created := [];
    assert TeamOf(d, key) == if key in byKey then Some(byKey[key]) else None;
    if key in byKey {
      var team := byKey[key];
      var forms := FillGroup(batch, rows, idx, team.category, team.members, ToExisting(team.id), size, d, key);
    } else {
      var category := PickCategory(batch, idx, d);
      if !category.Valid() {
        // blank or unknown: either way every row of the group is turned away
        ghost var before := rows[..];
        GroupIsExact(d, key, |d.entries|);
        RejectAll(rows, idx, TeamCategoryField);
        SeatsWhenUnseatable(d, key, before, rows[..]);
      } else {
        var forms := FillGroup(batch, rows, idx, category, [], ToNew(key), size, d, key);
        if forms {
          created := [PlannedTeam(key, first.raceID, Trim(first.teamName), category)];
        }
      }
    }
  }

  /** Row i once the groups of the given keys have been looked at. */
  ghost function RowAfter(d: Draft, keys: seq<string>, i: nat): RowPlan
    requires i < |d.entries|
  {
    if Joins(d.races, d.entries[i]) && KeyOf(d.entries[i]) in keys then Considered(d, i) else d.entries[i].judged
  }

  ghost predicate RowsAfter(d: Draft, keys: seq<string>, rows: seq<RowPlan>) {
    |rows| == |d.entries| && forall i :: 0 <= i < |rows| ==> rows[i] == RowAfter(d, keys, i)
  }

  /** The rows of a group not yet looked at are as pass 1 left them. */
  lemma {:induction false} GroupIsUntouched(d: Draft, keys: seq<string>, key: string, rows: seq<RowPlan>)
    requires RowsAfter(d, keys, rows) && key !in keys
    ensures Judged(d, rows, Group(d, key))
  {
    var idx := Group(d, key);
    forall k | 0 <= k < |idx|
      ensures rows[idx[k]] == d.entries[idx[k]].judged
    {
      assert JoinsTeam(d, idx[k], key);
    }
  }

  /** Looking at one more group moves its rows and no others. */
  lemma {:induction false} OneMoreGroup(d: Draft, keys: seq<string>, key: string, before: seq<RowPlan>, after: seq<RowPlan>)
    requires RowsAfter(d, keys, before) && key !in keys
    requires |after| == |before| && SeatsTaken(d, key, after) && OnlyChanged(before, after, Group(d, key))
    ensures RowsAfter(d, keys + [key], after)
  {
    var idx := Group(d, key);
    GroupIsExact(d, key, |d.entries|);
    forall i | 0 <= i < |after|
      ensures after[i] == RowAfter(d, keys + [key], i)
    {
      if JoinsTeam(d, i, key) {
        assert after[idx[Place(d, i)]] == Seat(d, key, Place(d, i));
      } else {
        assert i !in idx;
      }
    }
  }

  /** A created team is joined by a row that applies. */
  lemma {:induction false} CreatedTeamIsJoined(d: Draft, key: string) returns (i: nat)
    requires Sound(d) && CreatesTeam(d, key)
    ensures i < |d.entries| && RowOf(d, i).team == Some(ToNew(key)) && Applies(RowOf(d, i))
  {
    i := Seated(d, key)[0];
    assert JoinsTeam(d, i, key);
    JoiningRow(d, i);
  }

  /** So dropping the planned teams nobody joins drops none. */
  lemma {:induction false} PlannedTeamsAreUsed(d: Draft, keys: seq<string>, used: set<string>)
    requires Sound(d)
    requires forall i :: 0 <= i < |d.entries| && RowOf(d, i).team.Some? && RowOf(d, i).team.value.ToNew? ==>
               RowOf(d, i).team.value.key in used
    ensures forall t :: t in TeamsFor(d, keys) ==> t.key in used
  {
    if keys != [] {
      PlannedTeamsAreUsed(d, keys[..|keys| - 1], used);
      var key := keys[|keys| - 1];
      if CreatesTeam(d, key) {
        var i := CreatedTeamIsJoined(d, key);
      }
    }
  }

  /** Once every group has been looked at, every row has been considered. */
  lemma {:induction false} AllConsidered(d: Draft, rows: seq<RowPlan>)
    requires RowsAfter(d, Keys(d), rows)
    ensures forall i :: 0 <= i < |rows| ==> rows[i] == Considered(d, i)
  {
    KeysAreTheGroups(d, |d.entries|);
    forall i | 0 <= i < |rows|
      ensures rows[i] == Considered(d, i)
    {
      if Joins(d.races, d.entries[i]) {
        GroupIsExact(d, KeyOf(d.entries[i]), |d.entries|);
        assert JoinsTeam(d, i, KeyOf(d.entries[i]));
      }
    }
  }

  /** Closes the rows that picked up an error and collects the new teams in use. */
  method CloseRows(rows: array<RowPlan>, ghost d: Draft) returns (used: set<string>)
    requires rows.Length == |d.entries|
    requires forall i :: 0 <= i < rows.Length ==> rows[i] == Considered(d, i)
    modifies rows
    ensures forall i :: 0 <= i < rows.Length ==> rows[i] == RowOf(d, i)
    ensures forall i :: 0 <= i < rows.Length && rows[i].team.Some? && rows[i].team.value.ToNew? ==> rows[i].team.value.key in used
  {
    used := {};
    for i := 0 to rows.Length
      invariant forall k :: 0 <= k < i ==> rows[k] == RowOf(d, k)
      invariant forall k :: i <= k < rows.Length ==> rows[k] == Considered(d, k)
      invariant forall k :: 0 <= k < i && rows[k].team.Some? && rows[k].team.value.ToNew? ==> rows[k].team.value.key in used
    {
      if HasError(rows[i].issues) {
        rows[i] := rows[i].(action := Rejected, team := None);
      } else if rows[i].team.Some? && rows[i].team.value.ToNew? {
        used := used + {rows[i].team.value.key};
      }
    }
  }

  method KeepUsed(newTeams: seq<PlannedTeam>, used: set<string>) returns (kept: seq<PlannedTeam>)
    ensures (forall t :: t in newTeams ==> t.key in used) ==> kept == newTeams
  {
    kept := [];
    for k := 0 to |newTeams|
      invariant (forall t :: t in newTeams ==> t.key in used) ==> kept == newTeams[..k]
    {
      if newTeams[k].key in used {
        kept := kept + [newTeams[k]];
      }
    }
  }

  /** The groups as pass 2 holds them: the order lists each key once. */
  ghost predicate HoldsGroups(d: Draft, groups: map<string, seq<nat>>, order: seq<string>) {
    && (forall j, k :: 0 <= j < k < |order| ==> order[j] != order[k])
    && (forall k :: 0 <= k < |order| ==> order[k] in groups && groups[order[k]] == Group(d, order[k]) != [])
  }

  lemma {:induction false} NextGroup(d: Draft, groups: map<string, seq<nat>>, order: seq<string>, q: nat, rows: seq<RowPlan>)
    requires q < |order| && HoldsGroups(d, groups, order) && RowsAfter(d, order[..q], rows)
    ensures order[q] in groups && groups[order[q]] == Group(d, order[q]) != []
    ensures order[q] !in order[..q]
    ensures Judged(d, rows, Group(d, order[q]))
  {
    GroupIsUntouched(d, order[..q], order[q], rows);
  }

  lemma {:induction false} NextGroupDone(d: Draft, order: seq<string>, q: nat, before: seq<RowPlan>, after: seq<RowPlan>, created: seq<PlannedTeam>)
    requires q < |order| && order[q] !in order[..q]
    requires RowsAfter(d, order[..q], before)
    requires |after| == |before| && SeatsTaken(d, order[q], after) && OnlyChanged(before, after, Group(d, order[q]))
    requires created == if CreatesTeam(d, order[q]) then [PlannedTeamOf(d, order[q])] else []
    ensures RowsAfter(d, order[..q + 1], after)
    ensures TeamsFor(d, order[..q + 1]) == TeamsFor(d, order[..q]) + created
  {
    assert order[..q + 1] == order[..q] + [order[q]];
    OneMoreGroup(d, order[..q], order[q], before, after);
  }

  /** Looks at every team, in order of first appearance. */
  method SeatGroups(batch: PlanInput, rows: array<RowPlan>, byKey: map<string, ExistingTeam>,
                    groups: map<string, seq<nat>>, order: seq<string>, ghost d: Draft)
    returns (newTeams: seq<PlannedTeam>)
    requires Drafts(d, batch) && Sound(d) && IndexesTeams(byKey, batch.teams)
    requires RowsAfter(d, [], rows[..]) && HoldsGroups(d, groups, order)
    modifies rows
    ensures RowsAfter(d, order, rows[..])
    ensures newTeams == TeamsFor(d, order)
  {
    newTeams := [];
    for q := 0 to |order|
      invariant RowsAfter(d, order[..q], rows[..])
      invariant newTeams == TeamsFor(d, order[..q])
    {
      ghost var before := rows[..];
      NextGroup(d, groups, order, q, before);
      var created := SeatGroup(batch, rows, byKey, order[q], groups[order[q]], d);
      NextGroupDone(d, order, q, before, rows[..], created);
      newTeams := newTeams + created;
    }
    assert order[..|order|] == order;
  }

  /** Pass 2 on what pass 1 left in the rows: group, seat, confirm or turn away, and
      settle every row. */
  method PlanTeams(batch: PlanInput, rows: array<RowPlan>, ghost d: Draft) returns (newTeams: seq<PlannedTeam>)
    requires rows.Length == |batch.rows|
    requires d == DraftFrom(batch, rows[..]) && Sound(d)
    modifies rows
    ensures Plan(rows[..], newTeams) == PlanOfDraft(d)
  {
    var byKey := IndexTeams(batch.teams);
    var groups, order := GroupRows(batch, rows, d);
    KeysAreTheGroups(d, |d.entries|);
    newTeams := SeatGroups(batch, rows, byKey, groups, order, d);
    AllConsidered(d, rows[..]);
    var used := CloseRows(rows, d);
    PlannedTeamsAreUsed(d, order, used);
    newTeams := KeepUsed(newTeams, used);
    assert rows[..] == PlanOfDraft(d).rows;
  }

  /** The whole planner: what it computes is the declarative plan. */
  method PlanImport(batch: PlanInput) returns (plan: Plan)
    ensures plan == PlanOf(batch)
  {
    var byBib, byRef := IndexExisting(batch.existing);
    var fileBibs, fileRefs := CountFile(batch.rows);
    var rows := new RowPlan[|batch.rows|](_ => RowPlan(0, 0, "", Undecided, [], None, None));
    for i := 0 to rows.Length
      invariant forall k :: 0 <= k < i ==> rows[k] == Judge(batch, k)
    {
      rows[i] := JudgeRow(batch, i, byBib, byRef, fileBibs, fileRefs);
    }
    ghost var d := DraftOf(batch);
    DraftIsSound(batch);
    assert d == DraftFrom(batch, rows[..]);
    var newTeams := PlanTeams(batch, rows, d);
    plan := Plan(rows[..], newTeams);
  }

  /** How many rows take each action. */
  function CountAction(rows: seq<RowPlan>, action: Action): nat {
    if rows == [] then 0
    else CountAction(rows[..|rows| - 1], action) + if rows[|rows| - 1].action == action then 1 else 0
  }

  /** The rows with one decision. */
  function RowsWith(rows: seq<RowPlan>, action: Action): set<nat> {
    set i | 0 <= i < |rows| && rows[i].action == action
  }

  lemma {:induction false} CountIsSize(rows: seq<RowPlan>, action: Action)
    ensures CountAction(rows, action) == |RowsWith(rows, action)|
  {
    if rows != [] {
      var front, n := rows[..|rows| - 1], |rows| - 1;
      CountIsSize(front, action);
      assert RowsWith(rows, action) == RowsWith(front, action) + if rows[n].action == action then {n} else {};
    }
  }

  method Counts(plan: Plan) returns (create: nat, update: nat, skip: nat, errs: nat)
    ensures create == CountAction(plan.rows, Create) && update == CountAction(plan.rows, Update)
    ensures skip == CountAction(plan.rows, Skip) && errs == CountAction(plan.rows, Rejected)
  {
    create, update, skip, errs := 0, 0, 0, 0;
    for i := 0 to |plan.rows|
      invariant create == CountAction(plan.rows[..i], Create) && update == CountAction(plan.rows[..i], Update)
      invariant skip == CountAction(plan.rows[..i], Skip) && errs == CountAction(plan.rows[..i], Rejected)
    {
      assert plan.rows[..i + 1][..i] == plan.rows[..i];
      match plan.rows[i].action {
        case Create => create := create + 1;
        case Update => update := update + 1;
        case Skip => skip := skip + 1;
        case Rejected => errs := errs + 1;
        case Undecided =>
      }
    }
    assert plan.rows[..|plan.rows|] == plan.rows;
  }
}
