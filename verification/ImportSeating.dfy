/** What pass 2 of an import answers, told from the rows that join a team and the team's
    listed members: which of them get a seat, when the group forms, which team is new,
    and what is remarked on. */
module ImportSeating {
  import opened Wrappers
  import opened Registration
  import opened Text
  import opened TeamRules
  import opened ImportPlan
  import opened ImportGuarantees

  // ---- who stays

  /** A listed member whom no joining row re-registers. */
  ghost predicate StaysOn(d: Draft, key: string, m: Existing) {
    && TeamOf(d, key).Some? && m in TeamOf(d, key).value.members
    && forall k :: JoinsTeam(d, k, key) ==> d.entries[k].judged.existingID != Some(m.id)
  }

  lemma {:induction false} WithoutHolds(members: seq<Existing>, gone: set<string>)
    ensures forall m :: m in Without(members, gone) <==> m in members && m.id !in gone
  {
    if members != [] {
      WithoutHolds(members[..|members| - 1], gone);
      assert members == members[..|members| - 1] + [members[|members| - 1]];
    }
  }

  lemma {:induction false} ReregisteredAre(d: Draft, key: string, id: string)
    ensures id in Reregistered(d, Group(d, key)) <==> exists k :: JoinsTeam(d, k, key) && d.entries[k].judged.existingID == Some(id)
  {
    GroupIsExact(d, key, |d.entries|);
    var idx := Group(d, key);
    if id in Reregistered(d, idx) {
      var j :| 0 <= j < |idx| && d.entries[idx[j]].judged.existingID == Some(id);
      assert JoinsTeam(d, idx[j], key);
    }
    if k :| JoinsTeam(d, k, key) && d.entries[k].judged.existingID == Some(id) {
      assert k in idx;
    }
  }

  lemma {:induction false} StayingIsExact(d: Draft, key: string, m: Existing)
    ensures m in Staying(d, key) <==> StaysOn(d, key, m)
  {
    if TeamOf(d, key).Some? {
      WithoutHolds(TeamOf(d, key).value.members, Reregistered(d, Group(d, key)));
      ReregisteredAre(d, key, m.id);
    }
  }

  /** The members that stay, by id, counted. */
  ghost function StayingIds(d: Draft, key: string): set<string> {
    if TeamOf(d, key).None? then {}
    else set j | 0 <= j < |TeamOf(d, key).value.members| && StaysOn(d, key, TeamOf(d, key).value.members[j])
           :: TeamOf(d, key).value.members[j].id
  }

  ghost function IdsWithout(members: seq<Existing>, gone: set<string>): set<string> {
    set j | 0 <= j < |members| && members[j].id !in gone :: members[j].id
  }

  ghost predicate ListedOnce(members: seq<Existing>) {
    forall i, j :: 0 <= i < j < |members| ==> members[i].id != members[j].id
  }

  lemma {:induction false} WithoutCounts(members: seq<Existing>, gone: set<string>)
    requires ListedOnce(members)
    ensures |Without(members, gone)| == |IdsWithout(members, gone)|
  {
    if members != [] {
      var front, last := members[..|members| - 1], members[|members| - 1];
      WithoutCounts(front, gone);
      OneMoreWithout(front, last, gone);
      assert members == front + [last];
    }
  }

  lemma {:induction false} OneMoreWithout(front: seq<Existing>, last: Existing, gone: set<string>)
    requires forall i :: 0 <= i < |front| ==> front[i].id != last.id
    ensures |IdsWithout(front + [last], gone)| == |IdsWithout(front, gone)| + if last.id in gone then 0 else 1
  {
    var before, after := IdsWithout(front, gone), IdsWithout(front + [last], gone);
    assert last.id !in before;
    assert (front + [last])[|front|] == last;
    forall j | 0 <= j < |front| && front[j].id !in gone
      ensures front[j].id in after
    {
      assert (front + [last])[j] == front[j];
    }
    if last.id in gone {
      assert after == before;
    } else {
      assert after == before + {last.id};
    }
  }

  lemma {:induction false} StayingCounts(d: Draft, key: string)
    requires TeamOf(d, key).Some? ==> ListedOnce(TeamOf(d, key).value.members)
    ensures |Staying(d, key)| == |StayingIds(d, key)|
  {
    if TeamOf(d, key).Some? {
      var members, gone := TeamOf(d, key).value.members, Reregistered(d, Group(d, key));
      WithoutCounts(members, gone);
      forall j | 0 <= j < |members|
        ensures members[j].id !in gone <==> StaysOn(d, key, members[j])
      {
        ReregisteredAre(d, key, members[j].id);
      }
      assert IdsWithout(members, gone) == StayingIds(d, key);
    }
  }

  // ---- who gets a seat

  /** The rows that joined the team before row i. */
  ghost function JoinedBefore(d: Draft, key: string, i: int): set<int> {
    Below(k => JoinsTeam(d, k, key), i)
  }

  lemma {:induction false} PlaceIsCount(d: Draft, key: string, n: nat)
    requires n <= |d.entries|
    ensures |GroupUpTo(d, key, n)| == |JoinedBefore(d, key, n)|
  {
    if n > 0 {
      PlaceIsCount(d, key, n - 1);
      OneMoreJoins(d, key, n - 1);
    }
  }

  lemma {:induction false} OneMoreJoins(d: Draft, key: string, n: nat)
    ensures |JoinedBefore(d, key, n + 1)| == |JoinedBefore(d, key, n)| + if JoinsTeam(d, n, key) then 1 else 0
  {
    OneMoreBelow(k => JoinsTeam(d, k, key), n);
  }

  function Below(p: int -> bool, n: int): set<int> {
    set k | 0 <= k < n && p(k)
  }

  lemma {:induction false} OneMoreBelow(p: int -> bool, n: nat)
    ensures |Below(p, n + 1)| == |Below(p, n)| + if p(n) then 1 else 0
  {
    assert Below(p, n + 1) == if p(n) then Below(p, n) + {n} else Below(p, n);
  }

  lemma {:induction false} RowsBefore(d: Draft, key: string, i: nat, j: nat)
    requires i < |d.entries| && j < |Group(d, key)| && Group(d, key)[j] == i
    ensures forall k :: k in Group(d, key)[..j] <==> 0 <= k < i && JoinsTeam(d, k, key)
    ensures j == |JoinedBefore(d, key, i)|
  {
    var idx := Group(d, key);
    GroupIsExact(d, key, |d.entries|);
    PlaceIsInGroup(d, i, |d.entries|);
    var before := GroupUpTo(d, key, i);
    assert idx[|before|] == i;
    assert j == |before|;
    assert idx[..j] == before;
    GroupIsExact(d, key, i);
    PlaceIsCount(d, key, i);
  }

  /** Somebody who stays, or a row that joined before, has the leg. */
  ghost predicate LegIsGone(d: Draft, key: string, i: nat, leg: int) {
    || (exists m :: StaysOn(d, key, m) && m.legOrder == Some(leg))
    || (exists k :: 0 <= k < i && JoinsTeam(d, k, key) && d.entries[k].row.input.legOrder == Some(leg))
  }

  /** A row that joins a team gets a seat if and only if its leg is still to be had and,
      with the members who stay and the rows that joined before it, whether they got a
      seat or not, the team is not full. */
  lemma {:induction false} SeatIsExact(d: Draft, key: string, i: nat)
    requires forall r :: r in d.races ==> Barless(r)
    requires JoinsTeam(d, i, key)
    ensures i in Seated(d, key) <==>
              && (d.entries[i].row.input.legOrder.Some? ==> !LegIsGone(d, key, i, d.entries[i].row.input.legOrder.value))
              && |Staying(d, key)| + |JoinedBefore(d, key, i)| < d.races[d.entries[i].row.raceID].Size()
  {
    var idx := Group(d, key);
    GroupIsExact(d, key, |d.entries|);
    var j :| 0 <= j < |idx| && idx[j] == i;
    CleanIsExact(idx, Verdicts(d, key), j, |idx|);
    RowsBefore(d, key, i, j);
    GroupHasOneRace(d, key, idx[0], i);
    assert Verdicts(d, key)[j] == SeatIssues(d, idx, Staying(d, key), SizeOf(d, key), j);
    if d.entries[i].row.input.legOrder.Some? {
      LegIsGoneIff(d, key, i, j, d.entries[i].row.input.legOrder.value);
    }
  }

  lemma {:induction false} LegIsGoneIff(d: Draft, key: string, i: nat, j: nat, leg: int)
    requires i < |d.entries| && j < |Group(d, key)| && Group(d, key)[j] == i
    ensures HoldsLeg(Staying(d, key), leg) || AsksLeg(d, Group(d, key)[..j], leg) <==> LegIsGone(d, key, i, leg)
  {
    RowsBefore(d, key, i, j);
    var staying, before := Staying(d, key), Group(d, key)[..j];
    if k :| 0 <= k < |staying| && staying[k].legOrder == Some(leg) {
      StayingIsExact(d, key, staying[k]);
    }
    if m :| StaysOn(d, key, m) && m.legOrder == Some(leg) {
      StayingIsExact(d, key, m);
      var k :| 0 <= k < |staying| && staying[k] == m;
    }
    if k :| 0 <= k < |before| && d.entries[before[k]].row.input.legOrder == Some(leg) {
      assert before[k] in before;
    }
    if k :| 0 <= k < i && JoinsTeam(d, k, key) && d.entries[k].row.input.legOrder == Some(leg) {
      assert k in before;
    }
  }

  // ---- when the group forms

  /** Row i is the first of the joining rows to state a category. */
  ghost predicate StatesFirst(d: Draft, key: string, i: int) {
    && JoinsTeam(d, i, key) && d.entries[i].row.teamCategory != BlankCategory
    && forall k :: 0 <= k < i && JoinsTeam(d, k, key) ==> d.entries[k].row.teamCategory == BlankCategory
  }

  lemma {:induction false} StatedIsFirst(d: Draft, idx: seq<nat>)
    requires forall k :: 0 <= k < |idx| ==> idx[k] < |d.entries|
    ensures StatedCategory(d, idx) == BlankCategory <==> forall k :: 0 <= k < |idx| ==> d.entries[idx[k]].row.teamCategory == BlankCategory
    ensures StatedCategory(d, idx) != BlankCategory ==>
              exists k :: 0 <= k < |idx| && StatedCategory(d, idx) == d.entries[idx[k]].row.teamCategory
                          && forall j :: 0 <= j < k ==> d.entries[idx[j]].row.teamCategory == BlankCategory
  {
    if idx != [] {
      StatedIsFirst(d, idx[1..]);
      if d.entries[idx[0]].row.teamCategory == BlankCategory && StatedCategory(d, idx) != BlankCategory {
        var k :| 0 <= k < |idx[1..]| && StatedCategory(d, idx[1..]) == d.entries[idx[1..][k]].row.teamCategory
                 && forall j :: 0 <= j < k ==> d.entries[idx[1..][j]].row.teamCategory == BlankCategory;
        assert idx[1..][k] == idx[k + 1];
        forall j | 0 <= j < k + 1
          ensures d.entries[idx[j]].row.teamCategory == BlankCategory
        {
          assert j > 0 ==> idx[j] == idx[1..][j - 1];
        }
      }
    }
  }

  /** A stored team keeps its category; a new one takes that of the first joining row that
      states one. */
  lemma {:induction false} CategoryIsExact(d: Draft, key: string)
    ensures TeamOf(d, key).Some? ==> CategoryOf(d, key) == TeamOf(d, key).value.category
    ensures TeamOf(d, key).None? && CategoryOf(d, key) != BlankCategory ==>
              exists i :: StatesFirst(d, key, i) && CategoryOf(d, key) == d.entries[i].row.teamCategory
    ensures TeamOf(d, key).None? && CategoryOf(d, key) == BlankCategory ==>
              forall i :: JoinsTeam(d, i, key) ==> d.entries[i].row.teamCategory == BlankCategory
  {
    var idx := Group(d, key);
    StatedIsFirst(d, idx);
    if TeamOf(d, key).None? {
      if StatedCategory(d, idx) != BlankCategory {
        var k :| 0 <= k < |idx| && StatedCategory(d, idx) == d.entries[idx[k]].row.teamCategory
                 && forall j :: 0 <= j < k ==> d.entries[idx[j]].row.teamCategory == BlankCategory;
        FirstInGroup(d, key, k);
      } else {
        forall i | JoinsTeam(d, i, key)
          ensures d.entries[i].row.teamCategory == BlankCategory
        {
          var j := PlaceInGroup(d, key, i);
        }
      }
    }
  }

  lemma {:induction false} PlaceInGroup(d: Draft, key: string, i: int) returns (j: nat)
    requires JoinsTeam(d, i, key)
    ensures j < |Group(d, key)| && Group(d, key)[j] == i
  {
    GroupIsExact(d, key, |d.entries|);
    assert i in Group(d, key);
    j :| 0 <= j < |Group(d, key)| && Group(d, key)[j] == i;
  }

  lemma {:induction false} FirstInGroup(d: Draft, key: string, k: nat)
    requires k < |Group(d, key)| && d.entries[Group(d, key)[k]].row.teamCategory != BlankCategory
    requires forall j :: 0 <= j < k ==> d.entries[Group(d, key)[j]].row.teamCategory == BlankCategory
    ensures StatesFirst(d, key, Group(d, key)[k])
  {
    GroupIsExact(d, key, |d.entries|);
    forall i | 0 <= i < Group(d, key)[k] && JoinsTeam(d, i, key)
      ensures d.entries[i].row.teamCategory == BlankCategory
    {
      var j := PlaceInGroup(d, key, i);
    }
  }

  /** Somebody of this gender stays or is seated. */
  ghost predicate Present(d: Draft, key: string, g: Gender) {
    || (exists m :: StaysOn(d, key, m) && m.gender == g)
    || (exists i :: i in Seated(d, key) && d.entries[i].row.input.gender == g)
  }

  lemma {:induction false} GendersArePresent(d: Draft, key: string, g: Gender)
    ensures g in TeamGenders(d, key) <==> Present(d, key, g)
  {
    GenderOfMembers(Staying(d, key), g);
    GenderOfRows(d, Seated(d, key), g);
    if m :| StaysOn(d, key, m) && m.gender == g {
      StayingIsExact(d, key, m);
    }
    if m :| m in Staying(d, key) && m.gender == g {
      StayingIsExact(d, key, m);
    }
  }

  lemma {:induction false} GenderOfMembers(members: seq<Existing>, g: Gender)
    ensures g in GendersOfMembers(members) <==> exists m :: m in members && m.gender == g
  {
    if m :| m in members && m.gender == g {
      var k :| 0 <= k < |members| && members[k] == m;
      assert GendersOfMembers(members)[k] == g;
    }
    if g in GendersOfMembers(members) {
      var k :| 0 <= k < |members| && GendersOfMembers(members)[k] == g;
      assert members[k] in members;
    }
  }

  lemma {:induction false} GenderOfRows(d: Draft, idx: seq<nat>, g: Gender)
    requires forall k :: 0 <= k < |idx| ==> idx[k] < |d.entries|
    ensures g in GendersOfRows(d, idx) <==> exists i :: i in idx && d.entries[i].row.input.gender == g
  {
    if i :| i in idx && d.entries[i].row.input.gender == g {
      var k :| 0 <= k < |idx| && idx[k] == i;
      assert GendersOfRows(d, idx)[k] == g;
    }
    if g in GendersOfRows(d, idx) {
      var k :| 0 <= k < |idx| && GendersOfRows(d, idx)[k] == g;
      assert idx[k] in idx;
    }
  }

  /** The team as it would stand breaks its category: somebody of the wrong gender, or a
      full mixed team without both. */
  ghost predicate WouldClash(d: Draft, key: string, category: Category, size: int) {
    || (category == MaleTeam && exists g :: g != Male && Present(d, key, g))
    || (category == FemaleTeam && exists g :: g != Female && Present(d, key, g))
    || (category == MixedTeam && !(Present(d, key, Male) && Present(d, key, Female))
        && size > 0 && |Staying(d, key)| + |Seated(d, key)| >= size)
  }

  lemma {:induction false} ClashIsExact(d: Draft, key: string)
    ensures GroupComposition(d, key) == Clash <==> WouldClash(d, key, CategoryOf(d, key), SizeOf(d, key))
    ensures GroupComposition(d, key) == Incomplete <==>
              CategoryOf(d, key) == MixedTeam && !(Present(d, key, Male) && Present(d, key, Female))
              && !(SizeOf(d, key) > 0 && |Staying(d, key)| + |Seated(d, key)| >= SizeOf(d, key))
  {
    var genders := TeamGenders(d, key);
    ComposeIsExact(CategoryOf(d, key), SizeOf(d, key), genders);
    forall g
      ensures g in genders <==> Present(d, key, g)
    {
      GendersArePresent(d, key, g);
    }
    forall i | 0 <= i < |genders|
      ensures genders[i] in genders
    {
    }
  }

  /** A group forms if and only if its team is stored or can be created, somebody is
      seated, and the team would keep its category. */
  lemma {:induction false} FormsIsExact(d: Draft, key: string)
    ensures Forms(d, key) <==>
              && (TeamOf(d, key).Some? || CategoryOf(d, key) in {MaleTeam, FemaleTeam, MixedTeam})
              && (exists i :: i in Seated(d, key))
              && !WouldClash(d, key, CategoryOf(d, key), SizeOf(d, key))
  {
    ClashIsExact(d, key);
    if Seated(d, key) != [] {
      assert Seated(d, key)[0] in Seated(d, key);
    }
  }

  // ---- the new teams

  /** The new teams are those of the groups that form without a stored team; each has the
      race and the trimmed name of the first row that joins it, and the category stated. */
  lemma {:induction false} NewTeamsAreExact(batch: PlanInput, pt: PlannedTeam)
    ensures var d := DraftOf(batch);
            pt in PlanOf(batch).newTeams <==>
              && TeamOf(d, pt.key).None? && Forms(d, pt.key) && pt.category == CategoryOf(d, pt.key)
              && exists i :: JoinsTeam(d, i, pt.key) && |JoinedBefore(d, pt.key, i)| == 0
                             && pt.raceID == batch.rows[i].raceID && pt.name == Trim(batch.rows[i].teamName)
  {
    var d := DraftOf(batch);
    KeysAreTheGroups(d, |d.entries|);
    TeamsForIsExact(d, Keys(d));
    FirstJoins(d, pt.key);
    var idx := Group(d, pt.key);
    if pt in PlanOf(batch).newTeams {
      assert JoinsTeam(d, idx[0], pt.key) && |JoinedBefore(d, pt.key, idx[0])| == 0;
    }
    if i :| TeamOf(d, pt.key).None? && Forms(d, pt.key) && pt.category == CategoryOf(d, pt.key)
            && JoinsTeam(d, i, pt.key) && |JoinedBefore(d, pt.key, i)| == 0
            && pt.raceID == batch.rows[i].raceID && pt.name == Trim(batch.rows[i].teamName) {
      assert i == idx[0];
      assert pt == PlannedTeamOf(d, pt.key);
    }
  }

  /** The first row that joins a team is the one before which none does. */
  lemma {:induction false} FirstJoins(d: Draft, key: string)
    ensures forall i :: JoinsTeam(d, i, key) ==> Group(d, key) != [] && (|JoinedBefore(d, key, i)| == 0 <==> i == Group(d, key)[0])
  {
    var idx := Group(d, key);
    GroupIsExact(d, key, |d.entries|);
    forall i | JoinsTeam(d, i, key)
      ensures idx != [] && (|JoinedBefore(d, key, i)| == 0 <==> i == idx[0])
    {
      assert i in idx;
      var j :| 0 <= j < |idx| && idx[j] == i;
      RowsBefore(d, key, i, j);
    }
  }

  // ---- what keeps a row out

  /** The errors of pass 2 on a row that joins a team: about the category when the team
      cannot be created, otherwise about the leg when it is gone, about the team when the
      places are, and about the gender when the row has a seat in a group that clashes. */
  lemma {:induction false} ErrorsOfPassTwo(d: Draft, i: nat, f: Field)
    requires forall r :: r in d.races ==> Barless(r)
    requires i < |d.entries| && Joins(d.races, d.entries[i]) && !HasError(d.entries[i].judged.issues)
    ensures var key, row := KeyOf(d.entries[i]), d.entries[i].row;
            Issue(ErrorLevel, f) in RowOf(d, i).issues <==>
              if TeamOf(d, key).None? && CategoryOf(d, key) !in {MaleTeam, FemaleTeam, MixedTeam} then f == TeamCategoryField
              else
                || (f == LegField && row.input.legOrder.Some? && LegIsGone(d, key, i, row.input.legOrder.value))
                || (f == TeamNameField && |Staying(d, key)| + |JoinedBefore(d, key, i)| >= d.races[row.raceID].Size())
                || (f == GenderField && i in Seated(d, key) && WouldClash(d, key, CategoryOf(d, key), SizeOf(d, key)))
  {
    var key, j := KeyOf(d.entries[i]), Place(d, i);
    SeatTells(d, i, f);
    SeatIsExact(d, key, i);
    RowsBefore(d, key, i, j);
    GroupHasOneRace(d, key, Group(d, key)[0], i);
    if d.entries[i].row.input.legOrder.Some? {
      LegIsGoneIff(d, key, i, j, d.entries[i].row.input.legOrder.value);
    }
    ClashIsExact(d, key);
  }

  lemma {:induction false} SeatTells(d: Draft, i: nat, f: Field)
    requires i < |d.entries| && Joins(d.races, d.entries[i]) && !HasError(d.entries[i].judged.issues)
    ensures var key, j := KeyOf(d.entries[i]), Place(d, i);
            Issue(ErrorLevel, f) in RowOf(d, i).issues <==>
              if !Seatable(d, key) then f == TeamCategoryField
              else
                || Issue(ErrorLevel, f) in SeatIssues(d, Group(d, key), Staying(d, key), SizeOf(d, key), j)
                || (f == GenderField && i in Seated(d, key) && GroupComposition(d, key) == Clash)
  {
    var key, j := KeyOf(d.entries[i]), Place(d, i);
    NoErrorIn(d.entries[i].judged.issues, f);
    NoErrorIn(Remarks(d, key), f);
    RemarksAreWarnings(d, key);
    GroupIsExact(d, key, |d.entries|);
    CleanIsExact(Group(d, key), Verdicts(d, key), j, |Group(d, key)|);
  }

  lemma {:induction false} NoErrorIn(issues: seq<Issue>, f: Field)
    ensures !HasError(issues) ==> Issue(ErrorLevel, f) !in issues
  {
    if Issue(ErrorLevel, f) in issues {
      var k :| 0 <= k < |issues| && issues[k] == Issue(ErrorLevel, f);
    }
  }

  // ---- the remarks

  /** Of a group that forms, the first seated row carries the remarks: that a mixed team
      still lacks a gender, and that places are left. */
  lemma {:induction false} RemarksAreExact(d: Draft, i: nat)
    requires i < |d.entries| && Joins(d.races, d.entries[i])
    requires var key := KeyOf(d.entries[i]); Forms(d, key) && i in Seated(d, key)
    requires !HasError(d.entries[i].judged.issues)
    ensures var key := KeyOf(d.entries[i]);
            RowOf(d, i).issues == d.entries[i].judged.issues
              + if i != Seated(d, key)[0] then []
                else (if CategoryOf(d, key) == MixedTeam && !(Present(d, key, Male) && Present(d, key, Female))
                      then [Issue(WarningLevel, GenderField)] else [])
                     + (if |Staying(d, key)| + |Seated(d, key)| < SizeOf(d, key) then [Issue(WarningLevel, TeamNameField)] else [])
  {
    var key := KeyOf(d.entries[i]);
    var j := Place(d, i);
    var idx, verdicts := Group(d, key), Verdicts(d, key);
    GroupIsExact(d, key, |d.entries|);
    CleanIsExact(idx, verdicts, j, |idx|);
    CleanKeepsPlaces(idx, verdicts, j, |idx|);
    CleanAscends(idx, verdicts, |idx|);
    ClashIsExact(d, key);
    RemarksAreWarnings(d, key);
    var issues := d.entries[i].judged.issues;
    HasErrorOfSum(issues, []);
    HasErrorOfSum(issues, Remarks(d, key));
    assert issues + [] == issues;
    FirstCleanIs(idx, verdicts, j);
  }

  lemma {:induction false} FirstCleanIs(idx: seq<nat>, verdicts: seq<seq<Issue>>, j: nat)
    requires j < |idx| == |verdicts| && verdicts[j] == []
    requires forall a, b :: 0 <= a < b < |idx| ==> idx[a] < idx[b]
    ensures Clean(idx, verdicts, |idx|) != []
    ensures Clean(idx, verdicts, j) == [] <==> idx[j] == Clean(idx, verdicts, |idx|)[0]
  {
    CleanKeepsPlaces(idx, verdicts, j, |idx|);
    CleanAscends(idx, verdicts, j);
    var before := Clean(idx, verdicts, j);
    assert before + [idx[j]] <= Clean(idx, verdicts, |idx|);
    if before != [] {
      assert before[0] in before;
      assert Clean(idx, verdicts, |idx|)[0] == before[0];
      assert idx[j] !in idx[..j];
    }
  }
}
