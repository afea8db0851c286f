/** Counting argument for one team after an import: every member sits on a seat
    of its group, or was left behind by a rejected row. */
module ImportSeats {
  import opened Wrappers
  import opened Registration
  import opened ImportPlan
  import opened EventState
  import opened ImportTracking
  import opened ImportSafety

  function Elements(s: seq<string>): set<string> {
    set x | x in s
  }

  lemma {:induction false} ElementsAtMostLength(s: seq<string>)
    ensures |Elements(s)| <= |s|
    ensures |Elements(s)| == |s| ==> forall j, k :: 0 <= j < k < |s| ==> s[j] != s[k]
  {
    if s != [] {
      var front, last := s[..|s| - 1], s[|s| - 1];
      assert s == front + [last];
      ElementsAtMostLength(front);
      assert Elements(s) == Elements(front) + {last};
      if last in front {
        assert Elements(s) == Elements(front);
      }
    }
  }

  /** One team's seats: the staying members, then the targets of the seated rows. */
  function Seats(sc: Script, staying: seq<Existing>, seated: seq<nat>): (ids: seq<string>)
    requires sc.Shaped() && forall k :: 0 <= k < |seated| ==> seated[k] < |sc.rows|
    ensures |ids| == |staying| + |seated|
  {
    seq(|staying|, j requires 0 <= j < |staying| => staying[j].id)
    + seq(|seated|, j requires 0 <= j < |seated| => sc.Target(seated[j]))
  }

  /** q stays on the j-th staying seat. */
  ghost predicate Stays(sc: Script, staying: seq<Existing>, q: string, p: Participant, j: int)
    requires sc.Shaped()
  {
    && 0 <= j < |staying|
    && staying[j] == MemberView(q, p)
    && sc.LastWriter(|sc.rows|, q).None?
  }

  /** q sits where seated row k put it. */
  ghost predicate SitsBy(sc: Script, seated: seq<nat>, q: string, k: int)
    requires sc.Shaped()
  {
    k in seated && k >= 0 && sc.LastWriter(|sc.rows|, q) == Some(k)
  }

  /** Every member stays, sits by a seated row, or was left behind. */
  ghost predicate Placed(sc: Script, staying: seq<Existing>, seated: seq<nat>, left: set<string>, members: map<string, Participant>)
    requires sc.Shaped()
  {
    && (forall k :: 0 <= k < |seated| ==> seated[k] < |sc.rows|)
    && forall q :: q in members ==>
         || q in left
         || (exists j :: Stays(sc, staying, q, members[q], j))
         || (exists k :: SitsBy(sc, seated, q, k))
  }

  lemma {:induction false} PlacedOnSeats(sc: Script, staying: seq<Existing>, seated: seq<nat>, left: set<string>, members: map<string, Participant>)
    requires sc.Shaped() && Placed(sc, staying, seated, left, members)
    ensures members.Keys <= Elements(Seats(sc, staying, seated)) + left
  {
    var seats := Seats(sc, staying, seated);
    forall q | q in members && q !in left
      ensures q in seats
    {
      if j :| Stays(sc, staying, q, members[q], j) {
        assert seats[j] == q;
      } else {
        var k :| SitsBy(sc, seated, q, k);
        var i :| 0 <= i < |seated| && seated[i] == k;
        assert seats[|staying| + i] == q;
      }
    }
  }

  /** Nobody else is in the team: it has no more members than seats and members
      left behind. */
  lemma {:induction false} MembersAtMostSeats(sc: Script, staying: seq<Existing>, seated: seq<nat>, left: set<string>, members: map<string, Participant>)
    requires sc.Shaped() && Placed(sc, staying, seated, left, members)
    ensures |members| <= |staying| + |seated| + |left|
  {
    var seats := Elements(Seats(sc, staying, seated));
    PlacedOnSeats(sc, staying, seated, left, members);
    ElementsAtMostLength(Seats(sc, staying, seated));
    SetSize(members.Keys, seats + left);
    assert seats + left == seats + (left - seats);
    SetSize(left - seats, left);
  }

  lemma {:induction false} SetSize(part: set<string>, whole: set<string>)
    requires part <= whole
    ensures |part| <= |whole|
    ensures |part| == |whole| ==> part == whole
  {
    assert whole == part + (whole - part);
  }

  /** When the members fill every seat, no seat repeats and none is empty. */
  lemma {:induction false} NoSeatIsEmpty(sc: Script, staying: seq<Existing>, seated: seq<nat>, members: map<string, Participant>)
    requires sc.Shaped() && Placed(sc, staying, seated, {}, members)
    requires |members| >= |staying| + |seated|
    ensures var seats := Seats(sc, staying, seated);
            && (forall i :: 0 <= i < |seats| ==> seats[i] in members)
            && (forall i, j :: 0 <= i < j < |seats| ==> seats[i] != seats[j])
  {
    var seats := Seats(sc, staying, seated);
    PlacedOnSeats(sc, staying, seated, {}, members);
    ElementsAtMostLength(seats);
    assert Elements(seats) + {} == Elements(seats);
    SetSize(members.Keys, Elements(seats));
    forall i | 0 <= i < |seats|
      ensures seats[i] in members
    {
      assert seats[i] in Elements(seats);
    }
  }

  /** Each seat then has its own member. */
  lemma {:induction false} FullSeats(sc: Script, staying: seq<Existing>, seated: seq<nat>, members: map<string, Participant>, i: nat)
    requires sc.Shaped() && Placed(sc, staying, seated, {}, members)
    requires |members| >= |staying| + |seated|
    requires i < |staying| + |seated|
    ensures var q := Seats(sc, staying, seated)[i];
            && q in members
            && (i < |staying| ==> Stays(sc, staying, q, members[q], i))
            && (i >= |staying| ==> SitsBy(sc, seated, q, seated[i - |staying|]))
  {
    var seats := Seats(sc, staying, seated);
    NoSeatIsEmpty(sc, staying, seated, members);
    var q := seats[i];
    assert q in members;
    if j :| Stays(sc, staying, q, members[q], j) {
      SameSeat(seats, i, j);
    } else {
      var k :| SitsBy(sc, seated, q, k);
      var j := SeatOfRow(sc, staying, seated, q, k);
      SameSeat(seats, i, |staying| + j);
    }
  }

  lemma {:induction false} SeatOfRow(sc: Script, staying: seq<Existing>, seated: seq<nat>, q: string, k: int) returns (j: nat)
    requires sc.Shaped() && (forall k :: 0 <= k < |seated| ==> seated[k] < |sc.rows|) && SitsBy(sc, seated, q, k)
    ensures j < |seated| && seated[j] == k && |staying| + j < |Seats(sc, staying, seated)| && Seats(sc, staying, seated)[|staying| + j] == q
  {
    j :| 0 <= j < |seated| && seated[j] == k;
  }

  lemma SameSeat(seats: seq<string>, i: nat, j: nat)
    requires i < |seats| && j < |seats| && seats[i] == seats[j]
    requires forall i, j :: 0 <= i < j < |seats| ==> seats[i] != seats[j]
    ensures i == j
  {
  }

  /** The gender shown on the i-th seat is some member's. */
  lemma {:induction false} GenderIsSeated(sc: Script, staying: seq<Existing>, seated: seq<nat>, members: map<string, Participant>, g: Gender, i: nat)
    requires sc.Shaped() && Placed(sc, staying, seated, {}, members)
    requires |members| >= |staying| + |seated| > i
    requires forall q, k :: q in members && SitsBy(sc, seated, q, k) ==> members[q].gender == sc.rows[k].input.gender
    requires i < |staying| ==> staying[i].gender == g
    requires i >= |staying| ==> sc.rows[seated[i - |staying|]].input.gender == g
    ensures HasGender(members, g)
  {
    FullSeats(sc, staying, seated, members, i);
    assert members[Seats(sc, staying, seated)[i]].gender == g;
  }
}
