/** Cleaning up what a request supplies before the rules look at it
    (internal/participant/rules.go, internal/participant/participant.go). */
module InputRules {
  import opened Wrappers
  import opened Text
  import opened Registration

  /** Trims a text; nothing left is no text. */
  function TrimOption(p: Option<string>): (r: Option<string>)
    ensures r.Some? ==> r.value != "" && Trim(r.value) == r.value
  {
    if p.None? then None
    else
      TrimIsIdempotent(p.value);
      if Trim(p.value) == "" then None else Some(Trim(p.value))
  }

  /** What cleaning up makes of an optional text: the text without the white space
      around it, or nothing when there is nothing else. */
  ghost predicate Cleaned(raw: Option<string>, out: Option<string>) {
    && (out.None? <==> raw.None? || AllSpace(raw.value))
    && (out.Some? ==> TrimmedTo(raw.value, out.value))
  }

  lemma {:induction false} TrimOptionIsExact(p: Option<string>)
    ensures Cleaned(p, TrimOption(p))
  {
    if p.Some? {
      TrimIsExact(p.value);
    }
  }

  // ---- blood types

  /** Go's upper case where it lands on an ASCII letter: besides a to z, the
      dotless i and the long s. Other letters never spell a blood type. */
  function UpperChar(c: char): char {
    if 'a' <= c <= 'z' then (c as int - 32) as char
    else if c == '\U{131}' then 'I'
    else if c == '\U{17F}' then 'S'
    else c
  }

  /** The text without its white space, in upper case. */
  function Compact(s: string): string {
    if s == "" then ""
    else (if IsSpace(s[0]) then "" else [UpperChar(s[0])]) + Compact(s[1..])
  }

  function WithoutPrefix(s: string, p: string): string {
    if p <= s then s[|p|..] else s
  }

  predicate IsGroup(s: string) {
    s == "AB" || s == "A" || s == "B" || s == "O"
  }

  predicate PlusWord(s: string) {
    s == "+" || s == "POS" || s == "POSITIF" || s == "POSITIVE"
  }

  predicate MinusWord(s: string) {
    s == "-" || s == "NEG" || s == "NEGATIF" || s == "NEGATIVE"
  }

  /** The first group that starts the text: AB before A, its prefix. */
  function GroupOf(s: string): Option<string> {
    if "AB" <= s then Some("AB")
    else if "A" <= s then Some("A")
    else if "B" <= s then Some("B")
    else if "O" <= s then Some("O")
    else None
  }

  function SignOf(s: string): Option<string> {
    if s == "" then Some("")
    else if PlusWord(s) then Some("+")
    else if MinusWord(s) then Some("-")
    else None
  }

  /** The canonical blood type, if the text is recognised. */
  function NormalizeBloodType(raw: string): Option<string> {
    var s := Compact(raw);
    match GroupOf(s)
    case None => None
    case Some(group) => Signed(group, SignOf(AfterGroup(s, group)))
  }

  /** What follows the group, and the RH if there is one. */
  function AfterGroup(s: string, group: string): string {
    WithoutPrefix(WithoutPrefix(s, group), "RH")
  }

  function Signed(group: string, sign: Option<string>): Option<string> {
    if sign.Some? then Some(group + sign.value) else None
  }

  /** The text is a group, perhaps RH, and a sign word. */
  predicate Spells(s: string, group: string, rh: string, word: string) {
    IsGroup(group) && (rh == "" || rh == "RH") && SignOf(word).Some? && s == group + rh + word
  }

  lemma WordStart(word: string)
    requires SignOf(word).Some? && word != ""
    ensures word[0] == '+' || word[0] == '-' || word[0] == 'P' || word[0] == 'N'
  {
  }

  lemma {:induction false} GroupOfSpelling(group: string, rest: string)
    requires IsGroup(group) && (rest != "" ==> rest[0] != 'B')
    ensures GroupOf(group + rest) == Some(group)
    ensures WithoutPrefix(group + rest, group) == rest
  {
    assert (group + rest)[|group|..] == rest;
    if rest != "" {
      assert (group + rest)[|group|] == rest[0];
    }
  }

  lemma {:induction false} SignAfterRh(rh: string, word: string)
    requires (rh == "" || rh == "RH") && SignOf(word).Some?
    ensures WithoutPrefix(rh + word, "RH") == word
    ensures rh + word != "" ==> (rh + word)[0] != 'B'
  {
    if word != "" {
      WordStart(word);
    }
    if rh == "" {
      assert rh + word == word;
    } else {
      assert (rh + word)[2..] == word;
    }
  }

  /** A spelling starts with its group and ends in its word. */
  lemma {:induction false} SpellingParts(s: string, group: string, rh: string, word: string)
    requires Spells(s, group, rh, word)
    ensures GroupOf(s) == Some(group) && AfterGroup(s, group) == word
  {
    assert group + rh + word == group + (rh + word);
    SignAfterRh(rh, word);
    GroupOfSpelling(group, rh + word);
  }

  lemma GroupStarts(s: string)
    requires GroupOf(s).Some?
    ensures IsGroup(GroupOf(s).value) && s == GroupOf(s).value + WithoutPrefix(s, GroupOf(s).value)
  {
  }

  lemma {:induction false} RhStarts(rest: string) returns (rh: string)
    ensures (rh == "" || rh == "RH") && rest == rh + WithoutPrefix(rest, "RH")
  {
    rh := if "RH" <= rest then "RH" else "";
  }

  lemma PartsJoin(s: string, group: string, rest: string, rh: string, word: string)
    requires s == group + rest && rest == rh + word
    ensures s == group + rh + word
  {
  }

  /** A group followed by a word, or by RH and a word, is a spelling. */
  lemma {:induction false} PartsSpell(s: string, group: string, word: string) returns (rh: string)
    requires GroupOf(s) == Some(group) && AfterGroup(s, group) == word && SignOf(word).Some?
    ensures Spells(s, group, rh, word)
  {
    GroupStarts(s);
    var rest := WithoutPrefix(s, group);
    rh := RhStarts(rest);
    PartsJoin(s, group, rest, rh, word);
  }

  /** Any spelling of a group and a sign is recognised as them. */
  lemma {:induction false} SpellingIsRecognised(raw: string, group: string, rh: string, word: string)
    requires Spells(Compact(raw), group, rh, word)
    ensures NormalizeBloodType(raw) == Signed(group, SignOf(word))
  {
    SpellingParts(Compact(raw), group, rh, word);
  }

  /** Nothing else is. */
  lemma {:induction false} RecognisedIsSpelling(raw: string) returns (group: string, rh: string, word: string)
    requires NormalizeBloodType(raw).Some?
    ensures Spells(Compact(raw), group, rh, word)
    ensures NormalizeBloodType(raw) == Signed(group, SignOf(word))
  {
    var s := Compact(raw);
    group := GroupOf(s).value;
    word := AfterGroup(s, group);
    rh := PartsSpell(s, group, word);
  }

  /** The text spells a group and a sign that together read t. */
  ghost predicate SpellsType(s: string, t: string) {
    exists group, rh, word :: Spells(s, group, rh, word) && Signed(group, SignOf(word)) == Some(t)
  }

  /** A text is recognised as a blood type exactly when it spells it. */
  lemma {:induction false} BloodTypeIsExact(raw: string, t: string)
    ensures NormalizeBloodType(raw) == Some(t) <==> SpellsType(Compact(raw), t)
  {
    if NormalizeBloodType(raw) == Some(t) {
      var group, rh, word := RecognisedIsSpelling(raw);
      assert SpellsType(Compact(raw), t);
    }
    if SpellsType(Compact(raw), t) {
      var group, rh, word :| Spells(Compact(raw), group, rh, word) && Signed(group, SignOf(word)) == Some(t);
      SpellingIsRecognised(raw, group, rh, word);
      assert NormalizeBloodType(raw) == Some(t);
    }
  }

  /** The words for a sign. */
  lemma SignWords(word: string)
    ensures word in ["+", "POS", "POSITIF", "POSITIVE"] ==> SignOf(word) == Some("+")
    ensures word in ["-", "NEG", "NEGATIF", "NEGATIVE"] ==> SignOf(word) == Some("-")
    ensures SignOf("") == Some("")
    ensures SignOf(word).Some? ==> word in ["", "+", "POS", "POSITIF", "POSITIVE", "-", "NEG", "NEGATIF", "NEGATIVE"]
  {
  }

  lemma {:induction false} CompactJoins(a: string, b: string)
    ensures Compact(a + b) == Compact(a) + Compact(b)
  {
    if a == "" {
      assert a + b == b;
    } else {
      CompactJoins(a[1..], b);
      assert (a + b)[1..] == a[1..] + b && (a + b)[0] == a[0];
      var first := if IsSpace(a[0]) then "" else [UpperChar(a[0])];
      assert first + (Compact(a[1..]) + Compact(b)) == (first + Compact(a[1..])) + Compact(b);
    }
  }

  /** Compacting goes letter by letter: white space goes, small letters become capitals,
      and what is neither stays. */
  lemma {:induction false} CompactIsExact(a: string, c: char, b: string)
    ensures Compact("") == ""
    ensures IsSpace(c) ==> Compact(a + [c] + b) == Compact(a) + Compact(b)
    ensures 'a' <= c <= 'z' ==> Compact(a + [c] + b) == Compact(a) + [(c as int - 'a' as int + 'A' as int) as char] + Compact(b)
    ensures 'A' <= c <= 'Z' || '0' <= c <= '9' || c == '+' || c == '-' ==> Compact(a + [c] + b) == Compact(a) + [c] + Compact(b)
  {
    CompactJoins(a + [c], b);
    CompactJoins(a, [c]);
    CompactLetter(c);
  }

  lemma CompactLetter(c: char)
    ensures Compact([c]) == if IsSpace(c) then "" else [UpperChar(c)]
  {
    assert [c][1..] == "";
  }

  predicate Plain(c: char) {
    !IsSpace(c) && UpperChar(c) == c
  }

  lemma {:induction false} CompactOfPlain(s: string)
    requires forall i :: 0 <= i < |s| ==> Plain(s[i])
    ensures Compact(s) == s
  {
    if s != "" {
      CompactOfPlain(s[1..]);
      assert s == [s[0]] + s[1..];
    }
  }

  /** A canonical blood type is its own canonical form. */
  lemma {:induction false} BloodTypeIsStable(raw: string)
    requires NormalizeBloodType(raw).Some?
    ensures NormalizeBloodType(NormalizeBloodType(raw).value) == NormalizeBloodType(raw)
    ensures TrimOption(NormalizeBloodType(raw)) == NormalizeBloodType(raw)
  {
    var group, rh, word := RecognisedIsSpelling(raw);
    var sign := SignOf(word).value;
    SignIsItsWord(word);
    CanonicalIsPlain(group, sign);
    CompactOfPlain(group + sign);
    CanonicalSpells(group, sign);
    SpellingIsRecognised(group + sign, group, "", sign);
  }

  lemma SignIsItsWord(word: string)
    requires SignOf(word).Some?
    ensures var sign := SignOf(word).value; (sign == "" || sign == "+" || sign == "-") && SignOf(sign) == Some(sign)
  {
  }

  lemma {:induction false} CanonicalSpells(group: string, sign: string)
    requires IsGroup(group) && SignOf(sign).Some?
    ensures Spells(group + sign, group, "", sign)
  {
    assert group + "" == group;
  }

  lemma {:induction false} CanonicalIsPlain(group: string, sign: string)
    requires IsGroup(group) && (sign == "" || sign == "+" || sign == "-")
    ensures forall i :: 0 <= i < |group + sign| ==> Plain((group + sign)[i])
    ensures SignOf(sign) == Some(sign)
    ensures TrimOption(Some(group + sign)) == Some(group + sign)
  {
    var t := group + sign;
    forall i | 0 <= i < |t|
      ensures Plain(t[i])
    {
      assert t[i] == 'A' || t[i] == 'B' || t[i] == 'O' || t[i] == '+' || t[i] == '-';
    }
  }

  // ---- the whole input

  function NormalizeDetails(d: Details): (Details, string) {
    var blood := TrimOption(d.bloodType);
    var known := if blood.Some? then NormalizeBloodType(blood.value) else None;
    (Details(
       Trim(d.firstName), TrimOption(d.lastName), TrimOption(d.bibName), TrimOption(d.email), TrimOption(d.club),
       TrimOption(d.emergencyName), TrimOption(d.emergencyPhone), known,
       if d.status == BlankStatus then Registered else d.status),
     if blood.Some? && known.None? then blood.value else "")
  }

  /** Trims the text fields, turns blank into missing, fills in the status and
      canonicalises the blood type. The second part is the blood type that was
      not recognised, or empty. */
  function Normalize(input: Input): (Input, string) {
    var (details, bad) := NormalizeDetails(input.details);
    (input.(details := details, refID := TrimOption(input.refID), teamID := TrimOption(input.teamID)), bad)
  }

  /** What cleaning up makes of an input, field by field. The text that is not
      recognised as a blood type is given back instead. */
  lemma {:induction false} NormalizeIsExact(input: Input)
    ensures var (out, bad) := Normalize(input);
            var d, d' := input.details, out.details;
            && TrimmedTo(d.firstName, d'.firstName)
            && Cleaned(d.lastName, d'.lastName) && Cleaned(d.bibName, d'.bibName) && Cleaned(d.email, d'.email)
            && Cleaned(d.club, d'.club) && Cleaned(d.emergencyName, d'.emergencyName)
            && Cleaned(d.emergencyPhone, d'.emergencyPhone)
            && Cleaned(input.refID, out.refID) && Cleaned(input.teamID, out.teamID)
            && d'.status == (if d.status == BlankStatus then Registered else d.status)
            && out.bib == input.bib && out.gender == input.gender && out.legOrder == input.legOrder
    ensures var (out, bad) := Normalize(input);
            forall blood :: Cleaned(input.details.bloodType, Some(blood)) ==>
              if NormalizeBloodType(blood).Some? then out.details.bloodType == NormalizeBloodType(blood) && bad == ""
              else out.details.bloodType.None? && bad == blood
    ensures Cleaned(input.details.bloodType, None) ==> Normalize(input).0.details.bloodType.None? && Normalize(input).1 == ""
  {
    var d := input.details;
    TrimIsExact(d.firstName);
    TrimOptionIsExact(d.lastName);
    TrimOptionIsExact(d.bibName);
    TrimOptionIsExact(d.email);
    TrimOptionIsExact(d.club);
    TrimOptionIsExact(d.emergencyName);
    TrimOptionIsExact(d.emergencyPhone);
    TrimOptionIsExact(d.bloodType);
    TrimOptionIsExact(input.refID);
    TrimOptionIsExact(input.teamID);
    forall blood | Cleaned(d.bloodType, Some(blood))
      ensures TrimOption(d.bloodType) == Some(blood)
    {
      TrimmedOnce(d.bloodType.value, blood, TrimOption(d.bloodType).value);
    }
  }

  lemma {:induction false} BloodIsKnown(supplied: Option<string>)
    ensures var blood := TrimOption(supplied);
            var known := if blood.Some? then NormalizeBloodType(blood.value) else None;
            && TrimOption(known) == known
            && (known.Some? ==> NormalizeBloodType(known.value) == known)
  {
    var blood := TrimOption(supplied);
    if blood.Some? && NormalizeBloodType(blood.value).Some? {
      BloodTypeIsStable(blood.value);
    }
  }

  lemma {:induction false} DetailsAreIdempotent(d: Details)
    ensures NormalizeDetails(NormalizeDetails(d).0) == (NormalizeDetails(d).0, "")
  {
    TrimIsIdempotent(d.firstName);
    BloodIsKnown(d.bloodType);
  }

  /** Normalising again changes nothing and complains of nothing. */
  lemma {:induction false} NormalizeIsIdempotent(input: Input)
    ensures Normalize(Normalize(input).0) == (Normalize(input).0, "")
  {
    DetailsAreIdempotent(input.details);
  }
}
