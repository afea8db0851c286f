/** The field rules of a participant and the gender rule of a team
    (internal/participant/rules.go, internal/event/event.go). */
module TeamRules {
  import opened Wrappers
  import opened Registration
  import opened Text

  // ---- one participant

  predicate ValidEmail(s: string) {
    var at := IndexOf(s, '@');
    && 0 < at < |s| - 1
    && '.' in s[at..]
    && (forall c <- s :: c !in " \t\r\n")
    && |s| <= 254
  }

  /** The first field rule the input breaks, if any. */
  function Validate(input: Input, race: RaceFormat): Option<Field> {
    if input.details.firstName == "" then Some(FirstNameField)
    else if input.bib <= 0 then Some(BibField)
    else if input.gender == NoGender then Some(GenderField)
    else if !input.details.status.Valid() then Some(StatusField)
    else if input.details.email.Some? && !ValidEmail(input.details.email.value) then Some(EmailField)
    else if race.IsTeam() && input.teamID.None? then Some(TeamIDField)
    else if !race.IsTeam() && input.teamID.Some? then Some(TeamIDField)
    else if race.IsRelay() then
      if input.legOrder.None? then Some(LegField)
      else if !(1 <= input.legOrder.value <= race.Size()) then Some(LegField)
      else None
    else if input.legOrder.Some? then Some(LegField)
    else None
  }

  /** The input breaks the rule of this field in this race. */
  ghost predicate Breaks(input: Input, race: RaceFormat, f: Field) {
    match f
    case FirstNameField => input.details.firstName == ""
    case BibField => input.bib < 1
    case GenderField => input.gender != Male && input.gender != Female
    case StatusField => input.details.status !in {Registered, Finisher, DidNotFinish, DidNotStart}
    case EmailField => input.details.email.Some? && !IsAddress(input.details.email.value)
    case TeamIDField => input.teamID.Some? != (race.entry == ByTeam)
    case LegField =>
      if race.course != Relay then input.legOrder.Some?
      else !(input.legOrder.Some? && race.teamSize.Some? && 1 <= input.legOrder.value <= race.teamSize.value)
    case _ => false
  }

  /** A text of at most 254 characters without blanks whose first @ has something before
      it, and behind it a dot, but is not the last character. */
  ghost predicate IsAddress(s: string) {
    && |s| <= 254 && (forall c <- s :: c !in " \t\r\n")
    && exists i, j :: 0 < i < j < |s| && s[i] == '@' && '@' !in s[..i] && s[j] == '.'
  }

  lemma {:induction false} EmailIsExact(s: string)
    ensures ValidEmail(s) <==> IsAddress(s)
  {
    var at := IndexOf(s, '@');
    if ValidEmail(s) {
      var k :| 0 <= k < |s[at..]| && s[at..][k] == '.';
      assert s[at + k] == '.' && k > 0;
    }
    if IsAddress(s) {
      var i, j :| 0 < i < j < |s| && s[i] == '@' && '@' !in s[..i] && s[j] == '.';
      FirstIs(s, '@', i);
      assert s[at..][j - at] == '.';
    }
  }

  lemma {:induction false} FirstIs(s: string, c: char, i: nat)
    requires i < |s| && s[i] == c && c !in s[..i]
    ensures IndexOf(s, c) == i
  {
    NotBefore(s, c, i);
    assert c in s;
    NotBefore(s, c, IndexOf(s, c));
  }

  lemma {:induction false} NotBefore(s: string, c: char, i: nat)
    requires i <= |s| && c !in s[..i]
    ensures forall k :: 0 <= k < i ==> s[k] != c
  {
    forall k | 0 <= k < i
      ensures s[k] != c
    {
      assert s[..i][k] == s[k];
    }
  }

  /** The order in which the rules are looked at. */
  function Rank(f: Field): int {
    match f
    case FirstNameField => 1
    case BibField => 2
    case GenderField => 3
    case StatusField => 4
    case EmailField => 5
    case TeamIDField => 6
    case LegField => 7
    case _ => 0
  }

  /** The field rules name the first broken one, and nothing exactly when none is. */
  lemma {:induction false} ValidateIsExact(input: Input, race: RaceFormat)
    ensures match Validate(input, race)
            case None => forall f :: !Breaks(input, race, f)
            case Some(f) => Breaks(input, race, f) && forall g :: Rank(g) < Rank(f) ==> !Breaks(input, race, g)
  {
    if input.details.email.Some? {
      EmailIsExact(input.details.email.value);
    }
  }

  // ---- the genders of one team

  datatype Composition = Fits | Incomplete | Clash

  /** The gender rule: a male or female team holds that gender only; a mixed
      team holds both, which is final once it is full. */
  function Compose(category: Category, size: int, genders: seq<Gender>): Composition {
    match category
    case MaleTeam => if forall g <- genders :: g == Male then Fits else Clash
    case FemaleTeam => if forall g <- genders :: g == Female then Fits else Clash
    case MixedTeam =>
      if Male in genders && Female in genders then Fits
      else if 0 < size <= |genders| then Clash
      else Incomplete
    case _ => Fits
  }

  method CheckTeamComposition(category: Category, size: int, genders: seq<Gender>) returns (c: Composition)
    ensures c == Compose(category, size, genders)
  {
    if category == MaleTeam || category == FemaleTeam {
      var want := if category == MaleTeam then Male else Female;
      for i := 0 to |genders|
        invariant forall k :: 0 <= k < i ==> genders[k] == want
      {
        if genders[i] != want {
          assert genders[i] in genders;
          return Clash;
        }
      }
    } else if category == MixedTeam {
      var male, female := false, false;
      for i := 0 to |genders|
        invariant male <==> Male in genders[..i]
        invariant female <==> Female in genders[..i]
      {
        male := male || genders[i] == Male;
        female := female || genders[i] == Female;
      }
      assert genders[..|genders|] == genders;
      if !(male && female) {
        if size > 0 && |genders| >= size {
          return Clash;
        }
        return Incomplete;
      }
    }
    return Fits;
  }

  /** Only what the genders are matters to the rule, not their order, and once
      a composition clashes for a gender-bound team no added member mends it;
      a mixed team can be mended only while it is short of members. */
  lemma {:induction false} ClashIsFinal(category: Category, size: int, genders: seq<Gender>, more: seq<Gender>)
    requires Compose(category, size, genders) == Clash
    ensures category != MixedTeam ==> Compose(category, size, genders + more) == Clash
    ensures category == MixedTeam ==> 0 < size <= |genders|
  {
    if category == MaleTeam || category == FemaleTeam {
      var g :| g in genders && g != (if category == MaleTeam then Male else Female);
      assert g in genders + more;
    }
  }

  /** The verdicts in full: a male or female team clashes with anybody else, a mixed one
      only when it is full and lacks a gender, and until then lacks one openly. */
  lemma {:induction false} ComposeIsExact(category: Category, size: int, genders: seq<Gender>)
    ensures Compose(category, size, genders) == Clash <==>
              || (category == MaleTeam && exists i :: 0 <= i < |genders| && genders[i] != Male)
              || (category == FemaleTeam && exists i :: 0 <= i < |genders| && genders[i] != Female)
              || (category == MixedTeam && (Male !in genders || Female !in genders) && size > 0 && |genders| >= size)
    ensures Compose(category, size, genders) == Incomplete <==>
              category == MixedTeam && (Male !in genders || Female !in genders) && (size <= 0 || |genders| < size)
  {
    if i :| 0 <= i < |genders| && genders[i] != Male {
      assert genders[i] in genders;
    }
    if i :| 0 <= i < |genders| && genders[i] != Female {
      assert genders[i] in genders;
    }
  }

  // ---- a race's format

  function NormalizeFormat(f: RaceFormat): RaceFormat {
    var f1 := f.(entry := if f.entry == BlankEntry then Individual else f.entry,
                 course := if f.course == BlankCourse then Standard else f.course);
    var f2 := if f1.entry != ByTeam then f1.(teamSize := None) else f1;
    if f2.course != Loop then
      f2.(loopMode := None, loopLengthKM := None, loopTargetLaps := None, loopTimeLimitMS := None)
    else match f2.loopMode
      case Some(TargetLaps) => f2.(loopTimeLimitMS := None)
      case Some(TimeLimit) => f2.(loopTargetLaps := None)
      case _ => f2
  }

  predicate FormatValid(f: RaceFormat) {
    && (f.entry == Individual || f.entry == ByTeam)
    && (f.course == Standard || f.course == Relay || f.course == Loop)
    && (f.course == Relay ==> f.entry == ByTeam)
    && (f.entry == ByTeam ==> f.course != Standard)
    && (f.entry == ByTeam ==> f.teamSize.Some? && f.teamSize.value >= 2)
    && (f.course == Loop ==>
          && f.loopMode.Some?
          && f.loopLengthKM.Some? && f.loopLengthKM.value > 0.0
          && match f.loopMode.value
             case TargetLaps => f.loopTargetLaps.Some? && f.loopTargetLaps.value >= 1
             case TimeLimit => f.loopTimeLimitMS.Some? && f.loopTimeLimitMS.value > 0
             case UnknownMode => false)
  }

  /** What cleaning up makes of a format: blanks are filled in, and a setting survives
      exactly where the format has a use for it. */
  lemma {:induction false} NormalizeFormatIsExact(f: RaceFormat)
    ensures var g := NormalizeFormat(f);
            && g.entry == (if f.entry == BlankEntry then Individual else f.entry)
            && g.course == (if f.course == BlankCourse then Standard else f.course)
            && g.teamSize == (if f.entry == ByTeam then f.teamSize else None)
            && (f.course == Loop ==> g.loopMode == f.loopMode && g.loopLengthKM == f.loopLengthKM)
            && (f.course != Loop ==>
                  g.loopMode.None? && g.loopLengthKM.None? && g.loopTargetLaps.None? && g.loopTimeLimitMS.None?)
            && (f.course == Loop ==> g.loopTargetLaps == if f.loopMode == Some(TimeLimit) then None else f.loopTargetLaps)
            && (f.course == Loop ==> g.loopTimeLimitMS == if f.loopMode == Some(TargetLaps) then None else f.loopTimeLimitMS)
  {
  }

  /** A loop is run for laps or for time, over laps of some length. */
  ghost predicate LoopIsSet(f: RaceFormat) {
    && f.loopLengthKM.Some? && f.loopLengthKM.value > 0.0
    && (|| (f.loopMode == Some(TargetLaps) && f.loopTargetLaps.Some? && f.loopTargetLaps.value >= 1)
        || (f.loopMode == Some(TimeLimit) && f.loopTimeLimitMS.Some? && f.loopTimeLimitMS.value >= 1))
  }

  /** There are four kinds of race: people run the distance or a loop, teams of two or
      more a relay or a loop. */
  lemma {:induction false} FormatIsExact(f: RaceFormat)
    ensures FormatValid(f) <==>
              || (f.entry == Individual && f.course == Standard)
              || (f.entry == Individual && f.course == Loop && LoopIsSet(f))
              || (f.entry == ByTeam && f.teamSize.Some? && f.teamSize.value >= 2 && f.course == Relay)
              || (f.entry == ByTeam && f.teamSize.Some? && f.teamSize.value >= 2 && f.course == Loop && LoopIsSet(f))
  {
  }
}
