/** The order BIBs are printed in (internal/generator/layout.go). */
module PrintOrder {
  import opened Wrappers

  datatype Person = Person(id: string, bib: int, team: Option<string>, leg: Option<int>)

  /** What people are sorted by: group first, then leg, then BIB. */
  datatype Key = Key(group: int, leg: int, bib: int)

  predicate Less(a: Key, b: Key) {
    if a.group != b.group then a.group < b.group
    else if a.leg != b.leg then a.leg < b.leg
    else a.bib < b.bib
  }

  /** A team's place is its lowest BIB among the people. */
  function StartsOf(people: seq<Person>): map<string, int> {
    if people == [] then map[]
    else
      var before, p := StartsOf(people[..|people| - 1]), people[|people| - 1];
      if p.team.Some? && (p.team.value !in before || p.bib < before[p.team.value]) then before[p.team.value := p.bib]
      else before
  }

  function KeyOf(starts: map<string, int>, p: Person): Key {
    Key(if p.team.Some? && p.team.value in starts then starts[p.team.value] else p.bib,
        if p.leg.Some? then p.leg.value else p.bib,
        p.bib)
  }

  ghost predicate IsStart(people: seq<Person>, t: string, start: int) {
    && (exists i :: 0 <= i < |people| && people[i].team == Some(t) && people[i].bib == start)
    && (forall i :: 0 <= i < |people| && people[i].team == Some(t) ==> start <= people[i].bib)
  }

  lemma {:induction false} StartsAreLowest(people: seq<Person>)
    ensures forall t :: t in StartsOf(people) ==> IsStart(people, t, StartsOf(people)[t])
    ensures forall i :: 0 <= i < |people| && people[i].team.Some? ==> people[i].team.value in StartsOf(people)
  {
    if people != [] {
      var front := people[..|people| - 1];
      StartsAreLowest(front);
      forall t | t in StartsOf(people)
        ensures IsStart(people, t, StartsOf(people)[t])
      {
        if t in StartsOf(front) && StartsOf(people)[t] == StartsOf(front)[t] {
          var i :| 0 <= i < |front| && front[i].team == Some(t) && front[i].bib == StartsOf(front)[t];
          assert people[i] == front[i];
        } else {
          assert people[|people| - 1].team == Some(t);
        }
      }
    }
  }

  // ---- a stable sort, by whatever algorithm

  ghost predicate Sorted(starts: map<string, int>, ps: seq<Person>) {
    forall i, j :: 0 <= i < j < |ps| ==> !Less(KeyOf(starts, ps[j]), KeyOf(starts, ps[i]))
  }

  /** The people with one key, in order. */
  function WithKey(starts: map<string, int>, ps: seq<Person>, key: Key): seq<Person> {
    if ps == [] then []
    else (if KeyOf(starts, ps[0]) == key then [ps[0]] else []) + WithKey(starts, ps[1..], key)
  }

  /** Sorted, and people with equal keys keep their order. */
  ghost predicate StablySorted(starts: map<string, int>, before: seq<Person>, after: seq<Person>) {
    && Sorted(starts, after)
    && forall key :: WithKey(starts, after, key) == WithKey(starts, before, key)
  }

  lemma {:induction false} KeyHasPeople(starts: map<string, int>, ps: seq<Person>, i: nat)
    requires i < |ps|
    ensures WithKey(starts, ps, KeyOf(starts, ps[i])) != []
  {
    if i > 0 {
      KeyHasPeople(starts, ps[1..], i - 1);
    }
  }

  lemma {:induction false} WithKeyAreThere(starts: map<string, int>, ps: seq<Person>, key: Key) returns (i: nat)
    requires WithKey(starts, ps, key) != []
    ensures i < |ps| && KeyOf(starts, ps[i]) == key
  {
    if KeyOf(starts, ps[0]) == key {
      i := 0;
    } else {
      i := WithKeyAreThere(starts, ps[1..], key);
      i := i + 1;
    }
  }

  lemma {:induction false} HeadIsLeast(starts: map<string, int>, ps: seq<Person>, others: seq<Person>)
    requires ps != [] && Sorted(starts, ps)
    requires forall key :: WithKey(starts, ps, key) == WithKey(starts, others, key)
    ensures forall i :: 0 <= i < |others| ==> !Less(KeyOf(starts, others[i]), KeyOf(starts, ps[0]))
  {
    forall i | 0 <= i < |others|
      ensures !Less(KeyOf(starts, others[i]), KeyOf(starts, ps[0]))
    {
      KeyHasPeople(starts, others, i);
      var j := WithKeyAreThere(starts, ps, KeyOf(starts, others[i]));
    }
  }

  /** There is only one stable sort of a list. */
  lemma {:induction false} StableSortIsUnique(starts: map<string, int>, a: seq<Person>, b: seq<Person>)
    requires Sorted(starts, a) && Sorted(starts, b)
    requires forall key :: WithKey(starts, a, key) == WithKey(starts, b, key)
    ensures a == b
  {
    if a == [] || b == [] {
      if a != [] {
        KeyHasPeople(starts, a, 0);
      }
      if b != [] {
        KeyHasPeople(starts, b, 0);
      }
    } else {
      HeadIsLeast(starts, a, b);
      HeadIsLeast(starts, b, a);
      var key := KeyOf(starts, a[0]);
      assert KeyOf(starts, b[0]) == key;
      assert WithKey(starts, a, key)[0] == a[0] && WithKey(starts, b, key)[0] == b[0];
      forall k
        ensures WithKey(starts, a[1..], k) == WithKey(starts, b[1..], k)
      {
        assert WithKey(starts, a, k) == WithKey(starts, b, k);
        assert WithKey(starts, a[1..], k) == if k == key then WithKey(starts, a, k)[1..] else WithKey(starts, a, k);
        assert WithKey(starts, b[1..], k) == if k == key then WithKey(starts, b, k)[1..] else WithKey(starts, b, k);
      }
      StableSortIsUnique(starts, a[1..], b[1..]);
    }
  }

  // ---- the sort

  /** Puts p in front of the people that come after it. */
  function Insert(starts: map<string, int>, p: Person, sorted: seq<Person>): seq<Person> {
    if sorted == [] then [p]
    else if Less(KeyOf(starts, sorted[0]), KeyOf(starts, p)) then [sorted[0]] + Insert(starts, p, sorted[1..])
    else [p] + sorted
  }

  function StableSort(starts: map<string, int>, ps: seq<Person>): seq<Person> {
    if ps == [] then [] else Insert(starts, ps[0], StableSort(starts, ps[1..]))
  }

  lemma {:induction false} InsertKeepsPeople(starts: map<string, int>, p: Person, sorted: seq<Person>)
    ensures multiset(Insert(starts, p, sorted)) == multiset([p] + sorted)
  {
    if sorted != [] && Less(KeyOf(starts, sorted[0]), KeyOf(starts, p)) {
      InsertKeepsPeople(starts, p, sorted[1..]);
      assert sorted == [sorted[0]] + sorted[1..];
    }
  }

  lemma {:induction false} InsertKeepsOrder(starts: map<string, int>, p: Person, sorted: seq<Person>)
    requires Sorted(starts, sorted)
    ensures Sorted(starts, Insert(starts, p, sorted))
  {
    if sorted != [] && Less(KeyOf(starts, sorted[0]), KeyOf(starts, p)) {
      var rest := Insert(starts, p, sorted[1..]);
      InsertKeepsOrder(starts, p, sorted[1..]);
      InsertKeepsPeople(starts, p, sorted[1..]);
      forall i | 0 <= i < |rest|
        ensures !Less(KeyOf(starts, rest[i]), KeyOf(starts, sorted[0]))
      {
        assert rest[i] in multiset(rest);
        assert rest[i] in [p] + sorted[1..];
      }
    }
  }

  lemma {:induction false} FirstOfKey(starts: map<string, int>, p: Person, rest: seq<Person>, key: Key)
    ensures WithKey(starts, [p] + rest, key) == (if KeyOf(starts, p) == key then [p] else []) + WithKey(starts, rest, key)
  {
    assert ([p] + rest)[1..] == rest;
  }

  /** People with p's key come after it, as they did in the input. */
  lemma {:induction false} InsertKeepsEqual(starts: map<string, int>, p: Person, sorted: seq<Person>, key: Key)
    ensures WithKey(starts, Insert(starts, p, sorted), key) == WithKey(starts, [p] + sorted, key)
  {
    if sorted != [] && Less(KeyOf(starts, sorted[0]), KeyOf(starts, p)) {
      InsertKeepsEqual(starts, p, sorted[1..], key);
      FirstOfKey(starts, sorted[0], Insert(starts, p, sorted[1..]), key);
      FirstOfKey(starts, p, sorted[1..], key);
      FirstOfKey(starts, p, sorted, key);
    }
  }

  lemma {:induction false} SortIsStable(starts: map<string, int>, ps: seq<Person>)
    ensures StablySorted(starts, ps, StableSort(starts, ps))
    ensures multiset(StableSort(starts, ps)) == multiset(ps)
  {
    if ps != [] {
      var rest := StableSort(starts, ps[1..]);
      SortIsStable(starts, ps[1..]);
      InsertKeepsPeople(starts, ps[0], rest);
      InsertKeepsOrder(starts, ps[0], rest);
      assert ps == [ps[0]] + ps[1..] && ([ps[0]] + rest)[1..] == rest;
      forall key
        ensures WithKey(starts, StableSort(starts, ps), key) == WithKey(starts, ps, key)
      {
        InsertKeepsEqual(starts, ps[0], rest, key);
      }
    }
  }

  // ---- print order

  function Ordered(people: seq<Person>): seq<Person> {
    StableSort(StartsOf(people), people)
  }

  method TeamStarts(people: seq<Person>) returns (starts: map<string, int>)
    ensures starts == StartsOf(people)
  {
    starts := map[];
    for k := 0 to |people|
      invariant starts == StartsOf(people[..k])
    {
      var p := people[k];
      assert people[..k + 1][..k] == people[..k];
      if p.team.Some? && (p.team.value !in starts || p.bib < starts[p.team.value]) {
        starts := starts[p.team.value := p.bib];
      }
    }
    assert people[..|people|] == people;
  }

  /** The print order is the stable sort of the people by group, leg and BIB. */
  method PrintOrder(people: seq<Person>) returns (out: seq<Person>)
    ensures out == Ordered(people)
    ensures StablySorted(StartsOf(people), people, out)
    ensures multiset(out) == multiset(people)
  {
    var starts := TeamStarts(people);
    out := StableSort(starts, people);
    SortIsStable(starts, people);
  }

  ghost predicate DistinctBibs(people: seq<Person>) {
    forall i, j :: 0 <= i < j < |people| ==> people[i].bib != people[j].bib
  }

  ghost predicate UniqueBibs(people: multiset<Person>) {
    && (forall p :: p in people ==> people[p] == 1)
    && (forall p, q :: p in people && q in people && p.bib == q.bib ==> p == q)
  }

  lemma {:induction false} DistinctIsUnique(people: seq<Person>)
    requires DistinctBibs(people)
    ensures UniqueBibs(multiset(people))
  {
    if people != [] {
      var front, last := people[..|people| - 1], people[|people| - 1];
      DistinctIsUnique(front);
      assert people == front + [last];
      assert forall p :: p in multiset(front) ==> p in front;
    }
  }

  lemma {:induction false} UniqueIsDistinct(people: seq<Person>)
    requires UniqueBibs(multiset(people))
    ensures DistinctBibs(people)
  {
    if people != [] {
      var front, last := people[..|people| - 1], people[|people| - 1];
      assert people == front + [last];
      assert multiset(people) == multiset(front) + multiset{last};
      forall p: Person | p in multiset(front)
        ensures multiset(front)[p] == 1 && p != last
      {
        assert p in multiset(people) && multiset(people)[p] == 1;
      }
      forall p: Person, q: Person | p in multiset(front) && q in multiset(front) && p.bib == q.bib
        ensures p == q
      {
        assert p in multiset(people) && q in multiset(people);
      }
      UniqueIsDistinct(front);
      forall i | 0 <= i < |front|
        ensures front[i].bib != last.bib
      {
        assert front[i] in multiset(front) && front[i] in multiset(people) && last in multiset(people);
      }
    }
  }

  /** Team places do not depend on the order of the people. */
  lemma {:induction false} StartsIgnoreOrder(a: seq<Person>, b: seq<Person>)
    requires multiset(a) == multiset(b)
    ensures StartsOf(a) == StartsOf(b)
  {
    StartsAreLowest(a);
    StartsAreLowest(b);
    forall t | t in StartsOf(a)
      ensures t in StartsOf(b) && StartsOf(a)[t] == StartsOf(b)[t]
    {
      SameStart(a, b, t, StartsOf(a)[t]);
      SameTeams(a, b, t);
      SameStart(b, a, t, StartsOf(b)[t]);
    }
    forall t | t in StartsOf(b)
      ensures t in StartsOf(a)
    {
      SameTeams(b, a, t);
    }
  }

  lemma {:induction false} SameStart(a: seq<Person>, b: seq<Person>, t: string, start: int)
    requires multiset(a) == multiset(b) && IsStart(a, t, start)
    ensures IsStart(b, t, start)
  {
    var i :| 0 <= i < |a| && a[i].team == Some(t) && a[i].bib == start;
    assert a[i] in multiset(b);
    var j :| 0 <= j < |b| && b[j] == a[i];
    forall k | 0 <= k < |b| && b[k].team == Some(t)
      ensures start <= b[k].bib
    {
      assert b[k] in multiset(a);
      var l :| 0 <= l < |a| && a[l] == b[k];
    }
  }

  lemma {:induction false} SameTeams(a: seq<Person>, b: seq<Person>, t: string)
    requires multiset(a) == multiset(b) && t in StartsOf(a)
    ensures t in StartsOf(b)
  {
    StartsAreLowest(a);
    StartsAreLowest(b);
    var i :| 0 <= i < |a| && a[i].team == Some(t) && a[i].bib == StartsOf(a)[t];
    assert a[i] in multiset(b);
    var j :| 0 <= j < |b| && b[j] == a[i];
  }

  /** With distinct BIBs a key belongs to one person. */
  lemma {:induction false} KeyIsOnePerson(starts: map<string, int>, ps: seq<Person>, i: nat)
    requires DistinctBibs(ps) && i < |ps|
    ensures WithKey(starts, ps, KeyOf(starts, ps[i])) == [ps[i]]
  {
    if i > 0 {
      KeyIsOnePerson(starts, ps[1..], i - 1);
    } else if WithKey(starts, ps[1..], KeyOf(starts, ps[0])) != [] {
      var j := WithKeyAreThere(starts, ps[1..], KeyOf(starts, ps[0]));
    }
  }

  lemma {:induction false} SameKeys(starts: map<string, int>, a: seq<Person>, b: seq<Person>, key: Key)
    requires multiset(a) == multiset(b) && DistinctBibs(a) && DistinctBibs(b)
    ensures WithKey(starts, a, key) == WithKey(starts, b, key)
  {
    if WithKey(starts, a, key) != [] {
      var i := WithKeyAreThere(starts, a, key);
      assert a[i] in multiset(b);
      var j :| 0 <= j < |b| && b[j] == a[i];
      KeyIsOnePerson(starts, a, i);
      KeyIsOnePerson(starts, b, j);
    } else if WithKey(starts, b, key) != [] {
      var j := WithKeyAreThere(starts, b, key);
      assert b[j] in multiset(a);
      var i :| 0 <= i < |a| && a[i] == b[j];
      KeyHasPeople(starts, a, i);
    }
  }

  /** For distinct BIBs the print order does not depend on the input order. */
  lemma {:induction false} OrderIgnoresInputOrder(a: seq<Person>, b: seq<Person>)
    requires multiset(a) == multiset(b) && DistinctBibs(a)
    ensures Ordered(a) == Ordered(b)
  {
    var starts := StartsOf(a);
    StartsIgnoreOrder(a, b);
    DistinctIsUnique(a);
    UniqueIsDistinct(b);
    SortIsStable(starts, a);
    SortIsStable(starts, b);
    forall key
      ensures WithKey(starts, Ordered(a), key) == WithKey(starts, Ordered(b), key)
    {
      SameKeys(starts, a, b, key);
    }
    StableSortIsUnique(starts, Ordered(a), Ordered(b));
  }

  // ---- teams print together

  /** With distinct BIBs nobody outside a team shares its place. */
  lemma {:induction false} PlaceIsTheTeams(people: seq<Person>, i: nat, j: nat)
    requires DistinctBibs(people) && i < |people| && j < |people| && people[i].team.Some?
    requires KeyOf(StartsOf(people), people[i]).group == KeyOf(StartsOf(people), people[j]).group
    ensures people[j].team == people[i].team
  {
    var starts := StartsOf(people);
    StartsAreLowest(people);
    var t := people[i].team.value;
    var a :| 0 <= a < |people| && people[a].team == Some(t) && people[a].bib == starts[t];
    if people[j].team.Some? {
      var u := people[j].team.value;
      var b :| 0 <= b < |people| && people[b].team == Some(u) && people[b].bib == starts[u];
      assert people[a].bib == people[b].bib;
    }
  }

  lemma {:induction false} OrderedIsDistinct(people: seq<Person>)
    requires DistinctBibs(people)
    ensures DistinctBibs(Ordered(people)) && StartsOf(Ordered(people)) == StartsOf(people)
    ensures Sorted(StartsOf(people), Ordered(people))
  {
    SortIsStable(StartsOf(people), people);
    DistinctIsUnique(people);
    UniqueIsDistinct(Ordered(people));
    StartsIgnoreOrder(Ordered(people), people);
  }

  /** A team prints in one stretch. */
  lemma {:induction false} TeamsAreContiguous(people: seq<Person>, i: nat, j: nat, k: nat)
    requires DistinctBibs(people) && i < j < k < |Ordered(people)|
    requires Ordered(people)[i].team.Some? && Ordered(people)[k].team == Ordered(people)[i].team
    ensures Ordered(people)[j].team == Ordered(people)[i].team
  {
    var out := Ordered(people);
    OrderedIsDistinct(people);
    StartsAreLowest(out);
    PlaceIsTheTeams(out, i, j);
  }

  lemma GroupsAscend(starts: map<string, int>, ps: seq<Person>, i: nat, j: nat)
    requires Sorted(starts, ps) && i < j < |ps|
    ensures KeyOf(starts, ps[i]).group <= KeyOf(starts, ps[j]).group
  {
  }

  /** A member's group is its team's lowest BIB. */
  lemma {:induction false} GroupIsLowestBib(people: seq<Person>, i: nat)
    requires i < |Ordered(people)| && Ordered(people)[i].team.Some? && StartsOf(Ordered(people)) == StartsOf(people)
    ensures var t := Ordered(people)[i].team.value;
            && t in StartsOf(people) && IsStart(people, t, StartsOf(people)[t])
            && KeyOf(StartsOf(people), Ordered(people)[i]).group == StartsOf(people)[t]
  {
    StartsAreLowest(people);
    StartsAreLowest(Ordered(people));
  }

  /** A team's place is that of its lowest BIB among the people without
      a team and the other teams' lowest BIBs. */
  lemma {:induction false} TeamsLieAtTheirLowestBib(people: seq<Person>, i: nat, j: nat)
    requires DistinctBibs(people) && i < |Ordered(people)| && j < |Ordered(people)|
    requires Ordered(people)[i].team.Some? && Ordered(people)[j].team != Ordered(people)[i].team
    ensures var t := Ordered(people)[i].team.value;
            && t in StartsOf(people) && IsStart(people, t, StartsOf(people)[t])
            && (j < i <==> KeyOf(StartsOf(people), Ordered(people)[j]).group < StartsOf(people)[t])
  {
    OrderedIsDistinct(people);
    GroupIsLowestBib(people, i);
    if KeyOf(StartsOf(people), Ordered(people)[j]).group == StartsOf(people)[Ordered(people)[i].team.value] {
      PlaceIsTheTeams(Ordered(people), i, j);
    } else if j < i {
      GroupsAscend(StartsOf(people), Ordered(people), j, i);
    } else {
      GroupsAscend(StartsOf(people), Ordered(people), i, j);
    }
  }

  /** Within a team people print by leg, or by BIB where there is none, and then by BIB. */
  lemma {:induction false} MembersPrintByLeg(people: seq<Person>, i: nat, j: nat)
    requires DistinctBibs(people) && i < j < |Ordered(people)|
    requires Ordered(people)[i].team.Some? && Ordered(people)[j].team == Ordered(people)[i].team
    ensures var a, b := KeyOf(StartsOf(people), Ordered(people)[i]), KeyOf(StartsOf(people), Ordered(people)[j]);
            a.leg < b.leg || (a.leg == b.leg && a.bib < b.bib)
  {
    OrderedIsDistinct(people);
    StartsAreLowest(Ordered(people));
    assert Ordered(people)[i].bib != Ordered(people)[j].bib;
  }

  /** Where somebody's BIB falls: at the lowest BIB of the team, or at their own. */
  ghost predicate FallsAt(people: seq<Person>, p: Person, place: int) {
    if p.team.Some? then IsStart(people, p.team.value, place) else place == p.bib
  }

  function LegOrBib(p: Person): int {
    if p.leg.Some? then p.leg.value else p.bib
  }

  /** Of two people the one printed first falls at a lower place, or at the same with a lower
      leg, a BIB standing for a leg that is missing, or with the same leg and a lower BIB. */
  lemma {:induction false} PrintOrderIsExact(people: seq<Person>, i: nat, j: nat, a: int, b: int)
    requires DistinctBibs(people) && i < j < |Ordered(people)|
    requires FallsAt(people, Ordered(people)[i], a) && FallsAt(people, Ordered(people)[j], b)
    ensures var p, q := Ordered(people)[i], Ordered(people)[j];
            a < b || (a == b && (LegOrBib(p) < LegOrBib(q) || (LegOrBib(p) == LegOrBib(q) && p.bib < q.bib)))
  {
    var starts, p, q := StartsOf(people), Ordered(people)[i], Ordered(people)[j];
    OrderedIsDistinct(people);
    SortIsStable(starts, people);
    PlaceIsGroup(people, p, a);
    PlaceIsGroup(people, q, b);
  }

  lemma {:induction false} PlaceIsGroup(people: seq<Person>, p: Person, place: int)
    requires FallsAt(people, p, place)
    ensures KeyOf(StartsOf(people), p).group == place
  {
    StartsAreLowest(people);
    if p.team.Some? {
      var i :| 0 <= i < |people| && people[i].team == p.team && people[i].bib == place;
    }
  }
}
