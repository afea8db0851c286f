/** What the columns of the tables keep of a value: whole numbers of four bytes,
    and lap lengths of at most 9999.99 km in hundredths
    (migrations/0007_participants.up.sql, migrations/0012_team_loop_formats.up.sql). */
module Columns {
  import opened Wrappers
  import opened Registration
  import opened TeamRules

  const MAX_INT4 := 2147483647

  predicate FitsInt4(n: int) {
    -MAX_INT4 - 1 <= n <= MAX_INT4
  }

  predicate FitsInt4IfAny(n: Option<int>) {
    n.Some? ==> FitsInt4(n.value)
  }

  /** The participant's numbers fit their columns. */
  predicate Storable(p: Participant) {
    FitsInt4(p.bib) && FitsInt4IfAny(p.legOrder)
  }

  // ---- lap lengths

  const HUNDREDTHS_LIMIT := 1000000

  /** The nearest whole number of hundredths; halves go up. */
  function Hundredths(km: real): int {
    (km * 100.0 + 0.5).Floor
  }

  function OfHundredths(n: int): real {
    n as real / 100.0
  }

  /** Nothing is lost below the hundredths. */
  predicate WholeHundredths(km: real) {
    (km * 100.0).Floor as real == km * 100.0
  }

  lemma {:induction false} HundredthsAreExact(n: int)
    ensures Hundredths(OfHundredths(n)) == n && WholeHundredths(OfHundredths(n))
  {
    assert OfHundredths(n) * 100.0 == n as real;
  }

  /** Rounding changes a length exactly when it is no whole number of hundredths. */
  lemma {:induction false} KeptIffWhole(km: real)
    ensures OfHundredths(Hundredths(km)) == km <==> WholeHundredths(km)
  {
    if WholeHundredths(km) {
      assert Hundredths(km) == (km * 100.0).Floor;
    } else if OfHundredths(Hundredths(km)) == km {
      HundredthsAreExact(Hundredths(km));
    }
  }

  // ---- formats

  /** A lap length as it is read back. */
  function KeptLength(km: Option<real>): Option<real> {
    if km.Some? then Some(OfHundredths(Hundredths(km.value))) else None
  }

  /** The format as it is read back, or nothing when a number does not fit. */
  function KeptFormat(f: RaceFormat): Option<RaceFormat> {
    if !FitsInt4IfAny(f.teamSize) || !FitsInt4IfAny(f.loopTargetLaps) then None
    else if f.loopLengthKM.Some? && Hundredths(f.loopLengthKM.value) >= HUNDREDTHS_LIMIT then None
    else Some(f.(loopLengthKM := KeptLength(f.loopLengthKM)))
  }

  /** A format the races table can hold: what a valid one is read back as. Its lap
      length may have become zero. */
  predicate FormatKept(f: RaceFormat) {
    && KeptFormat(f) == Some(f)
    && NormalizeFormat(f) == f
    && FormatValid(if f.loopLengthKM == Some(0.0) then f.(loopLengthKM := Some(1.0)) else f)
  }

  /** What is read back is again what would be read back. */
  lemma {:induction false} KeptTwice(f: RaceFormat)
    requires KeptFormat(f).Some?
    ensures KeptFormat(KeptFormat(f).value) == KeptFormat(f)
  {
    if f.loopLengthKM.Some? {
      HundredthsAreExact(Hundredths(f.loopLengthKM.value));
    }
  }

  /** Storing a valid format leaves one the table can hold. */
  lemma {:induction false} ValidIsKept(f: RaceFormat)
    requires FormatValid(f) && NormalizeFormat(f) == f && KeptFormat(f).Some?
    ensures FormatKept(KeptFormat(f).value)
  {
    KeptTwice(f);
    if f.loopLengthKM.Some? && f.course == Loop {
      assert Hundredths(f.loopLengthKM.value) >= 0;
    }
  }

  /** Storing leaves a format alone exactly when its lap length is whole hundredths. */
  lemma {:induction false} KeptExactlyIff(f: RaceFormat)
    requires KeptFormat(f).Some?
    ensures KeptFormat(f) == Some(f) <==> (f.loopLengthKM.Some? ==> WholeHundredths(f.loopLengthKM.value))
  {
    if f.loopLengthKM.Some? {
      KeptIffWhole(f.loopLengthKM.value);
    }
  }

  /** What is read back is valid exactly when the lap was at least five metres. */
  lemma {:induction false} KeptIsValidIff(f: RaceFormat)
    requires FormatValid(f) && KeptFormat(f).Some?
    ensures FormatValid(KeptFormat(f).value) <==> (f.course == Loop ==> f.loopLengthKM.value >= 0.005)
  {
    if f.course == Loop {
      var n := Hundredths(f.loopLengthKM.value);
      assert OfHundredths(n) > 0.0 <==> n > 0;
    }
  }

  lemma NormalizeTwice(f: RaceFormat)
    ensures NormalizeFormat(NormalizeFormat(f)) == NormalizeFormat(f)
  {
  }
}
