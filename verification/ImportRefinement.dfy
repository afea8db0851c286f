/** Planning against only the participants an import loads gives the plan of
    the whole table (internal/participant/repository.go, import_service.go). */
module ImportRefinement {
  import opened Wrappers
  import opened Registration
  import opened ImportPlan
  import opened ImportGuarantees
  import opened EventState
  import opened ImportSafety

  /** The BIBs and ref_ids an import asks the table for. */
  function BibsOf(rows: seq<ImportRow>): set<int> {
    set i | 0 <= i < |rows| && rows[i].input.bib > 0 :: rows[i].input.bib
  }

  function RefsOf(rows: seq<ImportRow>): set<string> {
    set i | 0 <= i < |rows| && rows[i].input.refID.Some? :: rows[i].input.refID.value
  }

  /** The participants any of the rows could match. */
  function Loaded(people: map<string, Participant>, bibs: set<int>, refs: set<string>): map<string, Participant> {
    map q | q in people && (people[q].bib in bibs || (people[q].refID.Some? && people[q].refID.value in refs)) :: people[q]
  }

  ghost predicate UniqueKeys(people: map<string, Participant>) {
    && (forall a, b :: a in people && b in people && people[a].bib == people[b].bib ==> a == b)
    && (forall a, b :: a in people && b in people && people[a].refID.Some? && people[a].refID == people[b].refID ==> a == b)
  }

  /** A BIB lookup finds the one holder of the BIB, in whatever order the table is listed. */
  lemma {:induction false} BibLookupIsExact(existing: seq<Existing>, people: map<string, Participant>, bib: int)
    requires ListsPeople(existing, people) && UniqueKeys(people)
    ensures match LastByBib(existing, bib)
            case Some(e) => e.id in people && people[e.id].bib == bib && e == ViewOf(e.id, people[e.id])
            case None => forall q :: q in people ==> people[q].bib != bib
  {
    LastByBibIsListed(existing, bib);
    forall q | q in people && LastByBib(existing, bib).None?
      ensures people[q].bib != bib
    {
      assert ViewOf(q, people[q]) in existing;
    }
  }

  lemma {:induction false} RefLookupIsExact(existing: seq<Existing>, people: map<string, Participant>, ref: string)
    requires ListsPeople(existing, people) && UniqueKeys(people)
    ensures match LastByRef(existing, ref)
            case Some(e) => e.id in people && people[e.id].refID == Some(ref) && e == ViewOf(e.id, people[e.id])
            case None => forall q :: q in people ==> people[q].refID != Some(ref)
  {
    LastByRefIsListed(existing, ref);
    forall q | q in people && LastByRef(existing, ref).None?
      ensures people[q].refID != Some(ref)
    {
      assert ViewOf(q, people[q]) in existing;
    }
  }

  lemma {:induction false} BibLookupIsTheSame(whole: seq<Existing>, part: seq<Existing>, people: map<string, Participant>,
                           bibs: set<int>, refs: set<string>, bib: int)
    requires ListsPeople(whole, people) && UniqueKeys(people)
    requires ListsPeople(part, Loaded(people, bibs, refs)) && bib in bibs
    ensures LastByBib(part, bib) == LastByBib(whole, bib)
  {
    BibLookupIsExact(whole, people, bib);
    BibLookupIsExact(part, Loaded(people, bibs, refs), bib);
    if LastByBib(whole, bib).Some? {
      var q := LastByBib(whole, bib).value.id;
      assert q in Loaded(people, bibs, refs);
    }
  }

  lemma {:induction false} RefLookupIsTheSame(whole: seq<Existing>, part: seq<Existing>, people: map<string, Participant>,
                           bibs: set<int>, refs: set<string>, ref: string)
    requires ListsPeople(whole, people) && UniqueKeys(people)
    requires ListsPeople(part, Loaded(people, bibs, refs)) && ref in refs
    ensures LastByRef(part, ref) == LastByRef(whole, ref)
  {
    RefLookupIsExact(whole, people, ref);
    RefLookupIsExact(part, Loaded(people, bibs, refs), ref);
    if LastByRef(whole, ref).Some? {
      var q := LastByRef(whole, ref).value.id;
      assert q in Loaded(people, bibs, refs);
    }
  }

  /** A row that survives screening is matched alike in both listings. */
  lemma {:induction false} MatchIsTheSame(whole: seq<Existing>, part: seq<Existing>, people: map<string, Participant>,
                       bibs: set<int>, refs: set<string>, input: Input)
    requires ListsPeople(whole, people) && UniqueKeys(people)
    requires ListsPeople(part, Loaded(people, bibs, refs))
    requires input.bib in bibs && (input.refID.Some? ==> input.refID.value in refs)
    ensures FindMatch(part, input) == FindMatch(whole, input)
  {
    BibLookupIsTheSame(whole, part, people, bibs, refs, input.bib);
    if input.refID.Some? {
      RefLookupIsTheSame(whole, part, people, bibs, refs, input.refID.value);
    }
  }

  lemma {:induction false} JudgeIsTheSame(batch: PlanInput, part: seq<Existing>, people: map<string, Participant>, i: nat)
    requires ListsPeople(batch.existing, people) && UniqueKeys(people)
    requires ListsPeople(part, Loaded(people, BibsOf(batch.rows), RefsOf(batch.rows)))
    requires i < |batch.rows|
    ensures Judge(batch.(existing := part), i) == Judge(batch, i)
  {
    var row, loading := batch.rows[i], batch.(existing := part);
    assert Screen(loading, row) == Screen(batch, row) by {
      assert BibIssues(loading, row) == BibIssues(batch, row) && RefIssues(loading, row) == RefIssues(batch, row);
    }
    if !HasError(Screen(batch, row)) {
      ScreenedBibIsPositive(batch, row);
      MatchIsTheSame(batch.existing, part, people, BibsOf(batch.rows), RefsOf(batch.rows), row.input);
    }
  }

  lemma {:induction false} ScreenedBibIsPositive(batch: PlanInput, row: ImportRow)
    requires !HasError(Screen(batch, row))
    ensures row.input.bib > 0
  {
    if row.raceID !in batch.races {
      AnyErrorCounts(RaceField);
      HasErrorOfSum(BloodIssues(row), Error(RaceField));
    } else {
      var race := batch.races[row.raceID];
      ScreenParts(BloodIssues(row), NameIssues(race, row), FieldIssues(race, row), BibIssues(batch, row), RefIssues(batch, row));
      ScreenFindsErrors(batch, race, row);
    }
  }

  /** The refinement: what the loaded rows alone decide is what the whole
      participant table decides, for every file and every table with unique
      BIBs and ref_ids. */
  lemma {:induction false} LoadedRowsSuffice(batch: PlanInput, part: seq<Existing>, people: map<string, Participant>)
    requires ListsPeople(batch.existing, people) && UniqueKeys(people)
    requires ListsPeople(part, Loaded(people, BibsOf(batch.rows), RefsOf(batch.rows)))
    ensures PlanOf(batch.(existing := part)) == PlanOf(batch)
  {
    var loading := batch.(existing := part);
    forall i | 0 <= i < |batch.rows|
      ensures DraftOf(loading).entries[i] == DraftOf(batch).entries[i]
    {
      JudgeIsTheSame(batch, part, people, i);
    }
    assert DraftOf(loading).entries == DraftOf(batch).entries;
  }

  lemma {:induction false} DistinctKeysAreUnique(s: State)
    requires DistinctKeys(s)
    ensures UniqueKeys(s.people)
  {
    forall a, b | a in s.people && b in s.people
      ensures s.people[a].bib == s.people[b].bib ==> a == b
      ensures s.people[a].refID.Some? && s.people[a].refID == s.people[b].refID ==> a == b
    {
      assert BibFree(s, a, s.people[a].bib) && RefFree(s, a, s.people[a].refID);
    }
  }
}
