/** What a bulk import decides, said declaratively: which stored participant a
    row matches, which rows join a team, who is seated and which teams are
    created. The imperative planner is proved to compute exactly this. */
module ImportPlan {
  import opened Wrappers
  import opened Registration
  import opened Text
  import opened TeamRules

  // ---- input and output of the planner

  datatype Level = ErrorLevel | WarningLevel

  datatype Issue = Issue(level: Level, field: Field)

  datatype Action = Undecided | Create | Update | Skip | Rejected

  datatype ImportRow = ImportRow(
    line: int,
    input: Input,
    raceID: string,
    teamName: string,
    teamCategory: Category,
    badBloodType: string)

  datatype Existing = Existing(
    id: string,
    bib: int,
    refID: Option<string>,
    legOrder: Option<int>,
    gender: Gender)

  datatype ExistingTeam = ExistingTeam(
    id: string,
    raceID: string,
    name: string,
    category: Category,
    members: seq<Existing>)

  datatype PlanInput = PlanInput(
    rows: seq<ImportRow>,
    updateExisting: bool,
    races: map<string, RaceFormat>,
    existing: seq<Existing>,
    teams: seq<ExistingTeam>)

  datatype TeamRef = ToExisting(id: string) | ToNew(key: string)

  datatype PlannedTeam = PlannedTeam(key: string, raceID: string, name: string, category: Category)

  datatype RowPlan = RowPlan(
    line: int,
    bib: int,
    name: string,
    action: Action,
    issues: seq<Issue>,
    existingID: Option<string>,
    team: Option<TeamRef>)

  datatype Plan = Plan(rows: seq<RowPlan>, newTeams: seq<PlannedTeam>)

  function Error(f: Field): seq<Issue> {
    [Issue(ErrorLevel, f)]
  }

  function Warning(f: Field): seq<Issue> {
    [Issue(WarningLevel, f)]
  }

  predicate HasError(issues: seq<Issue>) {
    exists i :: 0 <= i < |issues| && issues[i].level == ErrorLevel
  }

  lemma {:induction false} HasErrorOfSum(a: seq<Issue>, b: seq<Issue>)
    ensures HasError(a + b) <==> HasError(a) || HasError(b)
  {
    if HasError(a) {
      var i :| 0 <= i < |a| && a[i].level == ErrorLevel;
      assert (a + b)[i].level == ErrorLevel;
    }
    if HasError(b) {
      var i :| 0 <= i < |b| && b[i].level == ErrorLevel;
      assert (a + b)[|a| + i].level == ErrorLevel;
    }
  }

  // ---- looking things up: the last entry with a given key wins

  function LastByBib(existing: seq<Existing>, bib: int): Option<Existing> {
    if existing == [] then None
    else
      var e := existing[|existing| - 1];
      if e.bib == bib then Some(e) else LastByBib(existing[..|existing| - 1], bib)
  }

  function LastByRef(existing: seq<Existing>, ref: string): Option<Existing> {
    if existing == [] then None
    else
      var e := existing[|existing| - 1];
      if e.refID == Some(ref) then Some(e) else LastByRef(existing[..|existing| - 1], ref)
  }

  function LastByKey(teams: seq<ExistingTeam>, key: string): Option<ExistingTeam> {
    if teams == [] then None
    else
      var t := teams[|teams| - 1];
      if TeamKey(t.raceID, t.name) == key then Some(t) else LastByKey(teams[..|teams| - 1], key)
  }

  /** How many rows of the file carry the BIB, or the ref_id. */
  function CountBib(rows: seq<ImportRow>, bib: int): nat {
    if rows == [] then 0
    else CountBib(rows[..|rows| - 1], bib) + if rows[|rows| - 1].input.bib == bib then 1 else 0
  }

  function CountRef(rows: seq<ImportRow>, ref: string): nat {
    if rows == [] then 0
    else CountRef(rows[..|rows| - 1], ref) + if rows[|rows| - 1].input.refID == Some(ref) then 1 else 0
  }

  // ---- pass 1: rows alone

  /** What stands in for a team id while the field rules run. */
  const PENDING_TEAM := "pending"

  function FullName(d: Details): string {
    if d.lastName.None? || d.lastName.value == "" then d.firstName
    else d.firstName + " " + d.lastName.value
  }

  function BloodIssues(row: ImportRow): seq<Issue> {
    if row.badBloodType != "" then Warning(BloodTypeField) else []
  }

  function NameIssues(race: RaceFormat, row: ImportRow): seq<Issue> {
    if race.IsTeam() && row.teamName == "" then Error(TeamNameField) else []
  }

  /** The field rules, run as if a team-race row already had its team. */
  function FieldIssues(race: RaceFormat, row: ImportRow): seq<Issue> {
    var input := if race.IsTeam() then row.input.(teamID := Some(PENDING_TEAM)) else row.input;
    var broken := Validate(input, race);
    if broken.Some? && !(race.IsTeam() && row.teamName == "" && broken.value == TeamIDField)
    then Error(broken.value) else []
  }

  function BibIssues(batch: PlanInput, row: ImportRow): seq<Issue> {
    if row.input.bib > 0 && CountBib(batch.rows, row.input.bib) > 1 then Error(BibField) else []
  }

  function RefIssues(batch: PlanInput, row: ImportRow): seq<Issue> {
    if row.input.refID.Some? && CountRef(batch.rows, row.input.refID.value) > 1 then Error(RefField) else []
  }

  /** The issues of a row before it is matched to anyone. */
  function Screen(batch: PlanInput, row: ImportRow): seq<Issue> {
    if row.raceID !in batch.races then BloodIssues(row) + Error(RaceField)
    else
      var race := batch.races[row.raceID];
      BloodIssues(row) + NameIssues(race, row) + FieldIssues(race, row) + BibIssues(batch, row) + RefIssues(batch, row)
  }

  datatype Match = NoMatch | Blocked | Matched(who: Existing, moves: bool)

  /** Who a screened row registers: ref_id first, BIB otherwise. */
  function FindMatch(existing: seq<Existing>, input: Input): Match {
    var byBib := LastByBib(existing, input.bib);
    if input.refID.None? then
      if byBib.Some? then Matched(byBib.value, false) else NoMatch
    else
      var byRef := LastByRef(existing, input.refID.value);
      if byRef.Some? then
        if byRef.value.bib == input.bib then Matched(byRef.value, false)
        else if byBib.Some? && byBib.value.id != byRef.value.id then Blocked
        else Matched(byRef.value, true)
      else if byBib.None? then NoMatch
      else if byBib.value.refID.Some? then Blocked
      else Matched(byBib.value, false)
  }

  /** The decision on row i before teams are looked at. */
  function Judge(batch: PlanInput, i: nat): RowPlan
    requires i < |batch.rows|
  {
    var row := batch.rows[i];
    var issues := Screen(batch, row);
    var rp := RowPlan(row.line, row.input.bib, FullName(row.input.details), Undecided, issues, None, None);
    if HasError(issues) then rp.(action := Rejected)
    else match FindMatch(batch.existing, row.input)
      case Blocked => rp.(action := Rejected, issues := issues + Error(BibField))
      case NoMatch => rp.(action := Create)
      case Matched(e, moves) =>
        rp.(action := if batch.updateExisting then Update else Skip,
            issues := issues + (if moves then Warning(BibField) else []) + Warning(BibField),
            existingID := Some(e.id))
  }

  predicate Applies(rp: RowPlan) {
    rp.action == Create || rp.action == Update
  }

  // ---- pass 2: teams

  /** A row with the decision pass 1 took on it. */
  datatype Entry = Entry(row: ImportRow, judged: RowPlan)

  /** What pass 2 works on. */
  datatype Draft = Draft(races: map<string, RaceFormat>, teams: seq<ExistingTeam>, entries: seq<Entry>)

  function DraftOf(batch: PlanInput): Draft {
    Draft(batch.races, batch.teams,
          seq(|batch.rows|, i requires 0 <= i < |batch.rows| => Entry(batch.rows[i], Judge(batch, i))))
  }

  /** The entry takes part in forming a team. */
  predicate Joins(races: map<string, RaceFormat>, e: Entry) {
    && Applies(e.judged)
    && e.row.raceID in races
    && races[e.row.raceID].IsTeam()
    && e.row.teamName != ""
  }

  function KeyOf(e: Entry): string {
    TeamKey(e.row.raceID, e.row.teamName)
  }

  predicate JoinsTeam(d: Draft, i: int, key: string) {
    0 <= i < |d.entries| && Joins(d.races, d.entries[i]) && KeyOf(d.entries[i]) == key
  }

  /** The rows below n that join the team with this key, in file order. */
  function GroupUpTo(d: Draft, key: string, n: nat): (idx: seq<nat>)
    requires n <= |d.entries|
    ensures forall k :: 0 <= k < |idx| ==> idx[k] < n && JoinsTeam(d, idx[k], key)
  {
    if n == 0 then []
    else GroupUpTo(d, key, n - 1) + if JoinsTeam(d, n - 1, key) then [n - 1] else []
  }

  function Group(d: Draft, key: string): (idx: seq<nat>)
    ensures forall k :: 0 <= k < |idx| ==> JoinsTeam(d, idx[k], key)
  {
    GroupUpTo(d, key, |d.entries|)
  }

  /** A group lists exactly its joining rows, in ascending order. */
  lemma {:induction false} GroupIsExact(d: Draft, key: string, n: nat)
    requires n <= |d.entries|
    ensures forall i :: i in GroupUpTo(d, key, n) <==> 0 <= i < n && JoinsTeam(d, i, key)
    ensures forall j, k :: 0 <= j < k < |GroupUpTo(d, key, n)| ==> GroupUpTo(d, key, n)[j] < GroupUpTo(d, key, n)[k]
  {
    if n > 0 {
      GroupIsExact(d, key, n - 1);
    }
  }

  /** The team keys of the joining rows below n, in order of first appearance. */
  function KeysUpTo(d: Draft, n: nat): seq<string>
    requires n <= |d.entries|
  {
    if n == 0 then []
    else
      var before := KeysUpTo(d, n - 1);
      var e := d.entries[n - 1];
      before + if Joins(d.races, e) && KeyOf(e) !in before then [KeyOf(e)] else []
  }

  function Keys(d: Draft): seq<string> {
    KeysUpTo(d, |d.entries|)
  }

  lemma {:induction false} KeysAreTheGroups(d: Draft, n: nat)
    requires n <= |d.entries|
    ensures forall key :: key in KeysUpTo(d, n) <==> GroupUpTo(d, key, n) != []
    ensures forall j, k :: 0 <= j < k < |KeysUpTo(d, n)| ==> KeysUpTo(d, n)[j] != KeysUpTo(d, n)[k]
  {
    if n > 0 {
      KeysAreTheGroups(d, n - 1);
    }
  }

  function TeamOf(d: Draft, key: string): Option<ExistingTeam> {
    LastByKey(d.teams, key)
  }

  function RaceSize(races: map<string, RaceFormat>, raceID: string): int {
    if raceID in races then races[raceID].Size() else 0
  }

  /** The team size that applies to a group. */
  function SizeOf(d: Draft, key: string): int {
    var idx := Group(d, key);
    if idx == [] then 0 else RaceSize(d.races, d.entries[idx[0]].row.raceID)
  }

  /** The first category a group of rows states. */
  function StatedCategory(d: Draft, idx: seq<nat>): Category
    requires forall k :: 0 <= k < |idx| ==> idx[k] < |d.entries|
  {
    if idx == [] then BlankCategory
    else if d.entries[idx[0]].row.teamCategory != BlankCategory then d.entries[idx[0]].row.teamCategory
    else StatedCategory(d, idx[1..])
  }

  /** An existing team keeps its category; a new one takes the stated one. */
  function CategoryOf(d: Draft, key: string): Category {
    match TeamOf(d, key)
    case Some(t) => t.category
    case None => StatedCategory(d, Group(d, key))
  }

  /** The group can be seated at all: its team exists or can be created. */
  predicate Seatable(d: Draft, key: string) {
    TeamOf(d, key).Some? || CategoryOf(d, key).Valid()
  }

  /** The participants a group of rows re-registers. */
  function Reregistered(d: Draft, idx: seq<nat>): set<string>
    requires forall k :: 0 <= k < |idx| ==> idx[k] < |d.entries|
  {
    set k | 0 <= k < |idx| && d.entries[idx[k]].judged.existingID.Some? :: d.entries[idx[k]].judged.existingID.value
  }

  function Without(members: seq<Existing>, gone: set<string>): seq<Existing> {
    if members == [] then []
    else
      var m := members[|members| - 1];
      Without(members[..|members| - 1], gone) + if m.id in gone then [] else [m]
  }

  /** The current members the group leaves alone. */
  function Staying(d: Draft, key: string): seq<Existing> {
    match TeamOf(d, key)
    case Some(t) => Without(t.members, Reregistered(d, Group(d, key)))
    case None => []
  }

  /** Some member in the list holds this leg. */
  predicate HoldsLeg(members: seq<Existing>, leg: int) {
    exists k :: 0 <= k < |members| && members[k].legOrder == Some(leg)
  }

  /** Some row in the list asks for this leg. */
  predicate AsksLeg(d: Draft, idx: seq<nat>, leg: int)
    requires forall k :: 0 <= k < |idx| ==> idx[k] < |d.entries|
  {
    exists k :: 0 <= k < |idx| && d.entries[idx[k]].row.input.legOrder == Some(leg)
  }

  /** What keeps the j-th listed row from being seated: its leg is held by
      somebody staying or asked for by an earlier row, or the places ran out. */
  function SeatIssues(d: Draft, idx: seq<nat>, staying: seq<Existing>, size: int, j: nat): seq<Issue>
    requires forall k :: 0 <= k < |idx| ==> idx[k] < |d.entries|
    requires j < |idx|
  {
    var leg := d.entries[idx[j]].row.input.legOrder;
    (if leg.Some? && (HoldsLeg(staying, leg.value) || AsksLeg(d, idx[..j], leg.value)) then Error(LegField) else [])
    + (if |staying| + j >= size then Error(TeamNameField) else [])
  }

  function VerdictsFor(d: Draft, idx: seq<nat>, staying: seq<Existing>, size: int): (verdicts: seq<seq<Issue>>)
    requires forall k :: 0 <= k < |idx| ==> idx[k] < |d.entries|
    ensures |verdicts| == |idx|
  {
    seq(|idx|, j requires 0 <= j < |idx| => SeatIssues(d, idx, staying, size, j))
  }

  /** The seat issues of a whole group, row by row. */
  function Verdicts(d: Draft, key: string): (verdicts: seq<seq<Issue>>)
    ensures |verdicts| == |Group(d, key)|
  {
    VerdictsFor(d, Group(d, key), Staying(d, key), SizeOf(d, key))
  }

  /** The rows among the first n listed that nothing keeps out. */
  function Clean(idx: seq<nat>, verdicts: seq<seq<Issue>>, n: nat): (clean: seq<nat>)
    requires n <= |idx| == |verdicts|
    ensures forall k :: 0 <= k < |clean| ==> clean[k] in idx
    ensures |clean| <= n
  {
    if n == 0 then []
    else Clean(idx, verdicts, n - 1) + if verdicts[n - 1] == [] then [idx[n - 1]] else []
  }

  lemma {:induction false} CleanAscends(idx: seq<nat>, verdicts: seq<seq<Issue>>, n: nat)
    requires n <= |idx| == |verdicts|
    requires forall j, k :: 0 <= j < k < |idx| ==> idx[j] < idx[k]
    ensures forall i :: i in Clean(idx, verdicts, n) ==> i in idx[..n]
    ensures forall j, k :: 0 <= j < k < |Clean(idx, verdicts, n)| ==> Clean(idx, verdicts, n)[j] < Clean(idx, verdicts, n)[k]
  {
    if n > 0 {
      CleanAscends(idx, verdicts, n - 1);
      assert idx[..n] == idx[..n - 1] + [idx[n - 1]];
      var before := Clean(idx, verdicts, n - 1);
      forall k | 0 <= k < |before|
        ensures before[k] < idx[n - 1]
      {
        assert before[k] in before;
      }
    }
  }

  /** A listed row is clean iff nothing keeps it out. */
  lemma {:induction false} CleanIsExact(idx: seq<nat>, verdicts: seq<seq<Issue>>, k: nat, n: nat)
    requires k < n <= |idx| == |verdicts|
    requires forall j, k :: 0 <= j < k < |idx| ==> idx[j] < idx[k]
    ensures idx[k] in Clean(idx, verdicts, n) <==> verdicts[k] == []
  {
    if k < n - 1 {
      CleanIsExact(idx, verdicts, k, n - 1);
    } else {
      CleanAscends(idx, verdicts, n - 1);
    }
  }

  /** The first clean row is the one before which none is clean. */
  lemma {:induction false} CleanKeepsPlaces(idx: seq<nat>, verdicts: seq<seq<Issue>>, k: nat, n: nat)
    requires k < n <= |idx| == |verdicts| && verdicts[k] == []
    ensures Clean(idx, verdicts, k) + [idx[k]] <= Clean(idx, verdicts, n)
  {
    if k < n - 1 {
      CleanKeepsPlaces(idx, verdicts, k, n - 1);
    }
  }

  /** The rows of a group that get a seat. */
  function Seated(d: Draft, key: string): (seated: seq<nat>)
    ensures forall k :: 0 <= k < |seated| ==> JoinsTeam(d, seated[k], key)
  {
    Clean(Group(d, key), Verdicts(d, key), |Group(d, key)|)
  }

  function GendersOfMembers(members: seq<Existing>): (gs: seq<Gender>)
    ensures |gs| == |members|
  {
    seq(|members|, k requires 0 <= k < |members| => members[k].gender)
  }

  function GendersOfRows(d: Draft, idx: seq<nat>): (gs: seq<Gender>)
    requires forall k :: 0 <= k < |idx| ==> idx[k] < |d.entries|
    ensures |gs| == |idx|
  {
    seq(|idx|, k requires 0 <= k < |idx| => d.entries[idx[k]].row.input.gender)
  }

  /** The genders of the team as it would stand after the import. */
  function TeamGenders(d: Draft, key: string): seq<Gender> {
    GendersOfMembers(Staying(d, key)) + GendersOfRows(d, Seated(d, key))
  }

  function GroupComposition(d: Draft, key: string): Composition {
    Compose(CategoryOf(d, key), SizeOf(d, key), TeamGenders(d, key))
  }

  /** The group ends with at least one row joining its team. */
  predicate Forms(d: Draft, key: string) {
    Seatable(d, key) && Seated(d, key) != [] && GroupComposition(d, key) != Clash
  }

  function RefOf(d: Draft, key: string): TeamRef {
    match TeamOf(d, key)
    case Some(t) => ToExisting(t.id)
    case None => ToNew(key)
  }

  /** The remarks put on the first seated row of a group that forms. */
  function Remarks(d: Draft, key: string): seq<Issue> {
    (if GroupComposition(d, key) == Incomplete then Warning(GenderField) else [])
    + (if |Staying(d, key)| + |Seated(d, key)| < SizeOf(d, key) then Warning(TeamNameField) else [])
  }

  /** The j-th row of a group once its team has been looked at. */
  function Seat(d: Draft, key: string, j: nat): RowPlan
    requires j < |Group(d, key)|
  {
    var rp := d.entries[Group(d, key)[j]].judged;
    if !Seatable(d, key) then rp.(issues := rp.issues + Error(TeamCategoryField))
    else
      var verdict := Verdicts(d, key)[j];
      var rp1 := rp.(issues := rp.issues + verdict);
      if verdict != [] then rp1
      else if GroupComposition(d, key) == Clash then rp1.(issues := rp1.issues + Error(GenderField))
      else
        var first := Clean(Group(d, key), Verdicts(d, key), j) == [];
        rp1.(issues := rp1.issues + (if first then Remarks(d, key) else []),
             team := Some(RefOf(d, key)))
  }

  /** Where in its group row i stands: behind the group's rows before it. */
  function Place(d: Draft, i: nat): (j: nat)
    requires i < |d.entries| && Joins(d.races, d.entries[i])
    ensures j < |Group(d, KeyOf(d.entries[i]))| && Group(d, KeyOf(d.entries[i]))[j] == i
  {
    PlaceIsInGroup(d, i, |d.entries|);
    |GroupUpTo(d, KeyOf(d.entries[i]), i)|
  }

  lemma {:induction false} PlaceIsInGroup(d: Draft, i: nat, n: nat)
    requires i < n <= |d.entries| && Joins(d.races, d.entries[i])
    ensures var key := KeyOf(d.entries[i]);
            && GroupUpTo(d, key, i) < GroupUpTo(d, key, n)
            && GroupUpTo(d, key, n)[|GroupUpTo(d, key, i)|] == i
  {
    if i < n - 1 {
      PlaceIsInGroup(d, i, n - 1);
    }
  }

  /** Row i after both passes, before errors close it. */
  function Considered(d: Draft, i: nat): RowPlan
    requires i < |d.entries|
  {
    if Joins(d.races, d.entries[i]) then Seat(d, KeyOf(d.entries[i]), Place(d, i)) else d.entries[i].judged
  }

  /** In the end an error on a row, wherever it came from, keeps it from applying. */
  function Close(rp: RowPlan): RowPlan {
    if HasError(rp.issues) then rp.(action := Rejected, team := None) else rp
  }

  function RowOf(d: Draft, i: nat): RowPlan
    requires i < |d.entries|
  {
    Close(Considered(d, i))
  }

  predicate CreatesTeam(d: Draft, key: string) {
    Group(d, key) != [] && TeamOf(d, key).None? && Forms(d, key)
  }

  function PlannedTeamOf(d: Draft, key: string): PlannedTeam
    requires Group(d, key) != []
  {
    var first := d.entries[Group(d, key)[0]].row;
    PlannedTeam(key, first.raceID, Trim(first.teamName), CategoryOf(d, key))
  }

  /** The teams created for a list of keys. */
  function TeamsFor(d: Draft, keys: seq<string>): seq<PlannedTeam> {
    if keys == [] then []
    else
      var key := keys[|keys| - 1];
      TeamsFor(d, keys[..|keys| - 1]) + if CreatesTeam(d, key) then [PlannedTeamOf(d, key)] else []
  }

  function PlanOfDraft(d: Draft): Plan {
    Plan(seq(|d.entries|, i requires 0 <= i < |d.entries| => RowOf(d, i)), TeamsFor(d, Keys(d)))
  }

  /** The plan of an import. */
  function PlanOf(batch: PlanInput): Plan {
    PlanOfDraft(DraftOf(batch))
  }

  // ---- what becomes of a row

  /** Pass 1 leaves no error on a row that goes on to pass 2, and gives none a team. */
  ghost predicate Sound(d: Draft) {
    forall i :: 0 <= i < |d.entries| ==>
      var rp := d.entries[i].judged;
      && (Applies(rp) ==> !HasError(rp.issues))
      && (rp.action == Rejected <==> HasError(rp.issues))
      && rp.action != Undecided
      && rp.team.None?
      && (rp.existingID.Some? <==> rp.action == Update || rp.action == Skip)
  }

  lemma {:induction false} DraftIsSound(batch: PlanInput)
    ensures Sound(DraftOf(batch))
  {
    forall i | 0 <= i < |batch.rows|
      ensures var rp := Judge(batch, i);
              && (rp.action == Rejected <==> HasError(rp.issues))
              && rp.action != Undecided
              && rp.team.None?
              && (rp.existingID.Some? <==> rp.action == Update || rp.action == Skip)
    {
      JudgeIsSound(batch, i);
    }
  }

  lemma {:induction false} JudgeIsSound(batch: PlanInput, i: nat)
    requires i < |batch.rows|
    ensures var rp := Judge(batch, i);
            && (rp.action == Rejected <==> HasError(rp.issues))
            && rp.action != Undecided
            && rp.team.None?
            && (rp.existingID.Some? <==> rp.action == Update || rp.action == Skip)
  {
    var issues := Screen(batch, batch.rows[i]);
    var warned := issues + Warning(BibField);
    HasErrorOfSum(issues, Error(BibField));
    assert Error(BibField)[0].level == ErrorLevel;
    HasErrorOfSum(issues, []);
    HasErrorOfSum(issues, Warning(BibField));
    HasErrorOfSum(issues + [], Warning(BibField));
    HasErrorOfSum(warned, Warning(BibField));
  }

  /** A verdict is empty or an error. */
  lemma {:induction false} VerdictIsError(d: Draft, key: string, k: nat)
    requires k < |Group(d, key)|
    ensures HasError(Verdicts(d, key)[k]) <==> Verdicts(d, key)[k] != []
  {
    var verdict := Verdicts(d, key)[k];
    assert verdict != [] ==> verdict[0].level == ErrorLevel;
  }

  lemma RemarksAreWarnings(d: Draft, key: string)
    ensures !HasError(Remarks(d, key))
  {
  }

  /** A row that tries to join a team applies iff its group forms and it has a
      seat; then it keeps its decision and gets the team. */
  lemma {:induction false} JoiningRow(d: Draft, i: nat)
    requires Sound(d) && i < |d.entries| && Joins(d.races, d.entries[i])
    ensures var key := KeyOf(d.entries[i]);
            var rp := RowOf(d, i);
            && (Forms(d, key) && i in Seated(d, key) ==>
                  rp.action == d.entries[i].judged.action && rp.team == Some(RefOf(d, key)) && !HasError(rp.issues))
            && (!(Forms(d, key) && i in Seated(d, key)) ==>
                  rp.action == Rejected && rp.team.None? && HasError(rp.issues))
            && rp.existingID == d.entries[i].judged.existingID
  {
    var key, k := KeyOf(d.entries[i]), Place(d, i);
    var issues, verdict := d.entries[i].judged.issues, Verdicts(d, key)[k];
    GroupIsExact(d, key, |d.entries|);
    CleanIsExact(Group(d, key), Verdicts(d, key), k, |Group(d, key)|);
    VerdictIsError(d, key, k);
    RemarksAreWarnings(d, key);
    HasErrorOfSum(issues, Error(TeamCategoryField));
    HasErrorOfSum(issues, verdict);
    HasErrorOfSum(issues + verdict, Error(GenderField));
    HasErrorOfSum(issues + verdict, Remarks(d, key));
    HasErrorOfSum(issues + verdict, []);
    assert Error(TeamCategoryField)[0].level == ErrorLevel && Error(GenderField)[0].level == ErrorLevel;
  }

  /** Any other row ends as pass 1 left it. */
  lemma OtherRow(d: Draft, i: nat)
    requires Sound(d) && i < |d.entries| && !Joins(d.races, d.entries[i])
    ensures RowOf(d, i) == d.entries[i].judged
  {
  }
}
