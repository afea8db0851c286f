/** The string helpers the registration code leans on: trimming, lower-casing
    and the key under which a team is looked up. */
module Text {

  /** The code points Go's unicode.IsSpace accepts. */
  predicate IsSpace(c: char) {
    || '\t' <= c <= '\r'
    || c == ' '
    || c == '\U{85}' || c == '\U{A0}' || c == '\U{1680}'
    || '\U{2000}' <= c <= '\U{200A}'
    || c == '\U{2028}' || c == '\U{2029}' || c == '\U{202F}' || c == '\U{205F}' || c == '\U{3000}'
  }

  function TrimLeft(s: string): (r: string)
    ensures r != "" ==> !IsSpace(r[0])
  {
    if s != "" && IsSpace(s[0]) then TrimLeft(s[1..]) else s
  }

  function TrimRight(s: string): (r: string)
    ensures r <= s
    ensures r != "" ==> !IsSpace(r[|r| - 1])
  {
    if s != "" && IsSpace(s[|s| - 1]) then TrimRight(s[..|s| - 1]) else s
  }

  function Trim(s: string): string {
    TrimRight(TrimLeft(s))
  }

  lemma {:induction false} TrimIsIdempotent(s: string)
    ensures Trim(Trim(s)) == Trim(s)
  {
    var t := Trim(s);
    if t != "" {
      assert t[0] == TrimLeft(s)[0];
    }
  }

  ghost predicate AllSpace(s: string) {
    forall i :: 0 <= i < |s| ==> IsSpace(s[i])
  }

  /** t is what is left of s without the white space around it. */
  ghost predicate TrimmedTo(s: string, t: string) {
    && (t != "" ==> !IsSpace(t[0]) && !IsSpace(t[|t| - 1]))
    && exists left, right :: AllSpace(left) && AllSpace(right) && s == left + t + right
  }

  lemma {:induction false} TrimLeftIsExact(s: string) returns (left: string)
    ensures AllSpace(left) && s == left + TrimLeft(s)
  {
    left := "";
    if s != "" && IsSpace(s[0]) {
      left := TrimLeftIsExact(s[1..]);
      left := [s[0]] + left;
      assert s == [s[0]] + s[1..];
    }
  }

  lemma {:induction false} TrimRightIsExact(s: string) returns (right: string)
    ensures AllSpace(right) && s == TrimRight(s) + right
  {
    right := "";
    if s != "" && IsSpace(s[|s| - 1]) {
      right := TrimRightIsExact(s[..|s| - 1]);
      right := right + [s[|s| - 1]];
      assert s == s[..|s| - 1] + [s[|s| - 1]];
    }
  }

  /** Trimming takes the white space around a text and nothing else, and leaves
      nothing exactly when there is nothing else. */
  lemma {:induction false} TrimIsExact(s: string)
    ensures TrimmedTo(s, Trim(s))
    ensures Trim(s) == "" <==> AllSpace(s)
  {
    var left := TrimLeftIsExact(s);
    var right := TrimRightIsExact(TrimLeft(s));
    assert s == left + Trim(s) + right;
    if Trim(s) != "" {
      assert Trim(s)[0] == TrimLeft(s)[0];
      assert s[|left|] == Trim(s)[0];
    }
  }

  lemma {:induction false} TrimmedStart(left1: string, t1: string, left2: string, t2: string, rest1: string, rest2: string)
    requires AllSpace(left1) && AllSpace(left2) && t1 != "" && t2 != "" && !IsSpace(t1[0]) && !IsSpace(t2[0])
    requires left1 + t1 + rest1 == left2 + t2 + rest2
    ensures |left1| == |left2|
  {
    var s := left1 + t1 + rest1;
    assert s[|left1|] == t1[0] && s[|left2|] == t2[0];
    assert forall k :: 0 <= k < |left1| ==> IsSpace(s[k]);
    assert forall k :: 0 <= k < |left2| ==> IsSpace(s[k]);
  }

  lemma {:induction false} TrimmedEnd(first1: string, t1: string, first2: string, t2: string, right1: string, right2: string)
    requires AllSpace(right1) && AllSpace(right2) && t1 != "" && t2 != "" && !IsSpace(t1[|t1| - 1]) && !IsSpace(t2[|t2| - 1])
    requires first1 + t1 + right1 == first2 + t2 + right2
    ensures |right1| == |right2|
  {
    var s := first1 + t1 + right1;
    var n := |s|;
    assert s[n - |right1| - 1] == t1[|t1| - 1] && s[n - |right2| - 1] == t2[|t2| - 1];
    assert forall k :: n - |right1| <= k < n ==> s[k] == right1[k - (n - |right1|)] && IsSpace(s[k]);
    assert forall k :: n - |right2| <= k < n ==> s[k] == right2[k - (n - |right2|)] && IsSpace(s[k]);
  }

  /** There is one way to trim a text that has anything in it. */
  lemma {:induction false} TrimmedOnce(s: string, t1: string, t2: string)
    requires TrimmedTo(s, t1) && TrimmedTo(s, t2) && t1 != "" && t2 != ""
    ensures t1 == t2
  {
    var l1, r1 :| AllSpace(l1) && AllSpace(r1) && s == l1 + t1 + r1;
    var l2, r2 :| AllSpace(l2) && AllSpace(r2) && s == l2 + t2 + r2;
    TrimmedStart(l1, t1, l2, t2, r1, r2);
    TrimmedEnd(l1, t1, l2, t2, r1, r2);
    assert |t1| == |t2|;
    assert t1 == s[|l1|..|l1| + |t1|] && t2 == s[|l2|..|l2| + |t2|];
  }

  function LowerChar(c: char): char {
    if 'A' <= c <= 'Z' then (c as int + 32) as char else c
  }

  function Lower(s: string): (r: string)
    ensures |r| == |s|
  {
    seq(|s|, i requires 0 <= i < |s| => LowerChar(s[i]))
  }

  /** The planner's team key: the race id, a bar, and the folded team name. */
  function TeamKey(raceID: string, name: string): string {
    raceID + "|" + Lower(Trim(name))
  }

  /** The same letter, or its capital or small form. */
  predicate SameLetter(a: char, b: char) {
    || a == b
    || ('A' <= a <= 'Z' && b as int == a as int - 'A' as int + 'a' as int)
    || ('A' <= b <= 'Z' && a as int == b as int - 'A' as int + 'a' as int)
  }

  /** Two names of one race mean the same team exactly when they differ in the white
      space around them and in capitals only. */
  lemma {:induction false} SameTeamIff(raceID: string, n1: string, n2: string)
    ensures TeamKey(raceID, n1) == TeamKey(raceID, n2) <==>
              |Trim(n1)| == |Trim(n2)| && forall i :: 0 <= i < |Trim(n1)| ==> SameLetter(Trim(n1)[i], Trim(n2)[i])
  {
    var t1, t2 := Trim(n1), Trim(n2);
    var k1, k2 := TeamKey(raceID, n1), TeamKey(raceID, n2);
    assert Lower(t1) == k1[|raceID| + 1..] && Lower(t2) == k2[|raceID| + 1..];
    if k1 == k2 {
      forall i | 0 <= i < |t1|
        ensures SameLetter(t1[i], t2[i])
      {
        assert Lower(t1)[i] == Lower(t2)[i];
      }
    }
    if |t1| == |t2| && forall i :: 0 <= i < |t1| ==> SameLetter(t1[i], t2[i]) {
      forall i | 0 <= i < |t1|
        ensures Lower(t1)[i] == Lower(t2)[i]
      {
        assert SameLetter(t1[i], t2[i]);
      }
      assert Lower(t1) == Lower(t2);
    }
  }

  /** Race ids are UUIDs, so they hold no bar; that is all the key needs. */
  predicate Barless(id: string) {
    '|' !in id
  }

  /** Where c first occurs, or -1. */
  function IndexOf(s: string, c: char): (i: int)
    ensures -1 <= i < |s|
    ensures i >= 0 ==> s[i] == c && c !in s[..i]
    ensures i == -1 <==> c !in s
  {
    if s == "" then -1
    else if s[0] == c then 0
    else
      var i := IndexOf(s[1..], c);
      if i == -1 then -1 else i + 1
  }

  lemma {:induction false} FirstBarOfKey(raceID: string, name: string)
    requires Barless(raceID)
    ensures IndexOf(TeamKey(raceID, name), '|') == |raceID|
  {
    var key := TeamKey(raceID, name);
    var i := IndexOf(key, '|');
    assert key[|raceID|] == '|';
    assert key[..|raceID|] == raceID;
    assert i != -1;
  }

  /** A key determines its race and its folded name, whatever the name holds. */
  lemma {:induction false} TeamKeyIsInjective(r1: string, n1: string, r2: string, n2: string)
    requires Barless(r1) && Barless(r2)
    requires TeamKey(r1, n1) == TeamKey(r2, n2)
    ensures r1 == r2 && Lower(Trim(n1)) == Lower(Trim(n2))
  {
    FirstBarOfKey(r1, n1);
    FirstBarOfKey(r2, n2);
    var k1, k2 := TeamKey(r1, n1), TeamKey(r2, n2);
    assert r1 == k1[..|r1|] && r2 == k2[..|r2|];
    assert Lower(Trim(n1)) == k1[|r1| + 1..] && Lower(Trim(n2)) == k2[|r2| + 1..];
  }

  /** The name a planned team is stored under has the key it was planned with. */
  lemma {:induction false} TrimKeepsKey(raceID: string, name: string)
    ensures TeamKey(raceID, Trim(name)) == TeamKey(raceID, name)
  {
    TrimIsIdempotent(name);
  }
}
