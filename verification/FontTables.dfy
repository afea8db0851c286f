/** The table directory of an sfnt font (OpenType specification, "Table
    directory"), read by the font library when a file is uploaded and again by
    the renderer when it is used (internal/fontlib/inspect.go,
    internal/generator/fonts.go). */
module FontTables {
  import opened Wrappers
  import opened Bytes

  // ---- big-endian numbers

  function U16(data: seq<byte>, at: nat): (v: nat)
    requires at + 2 <= |data|
    ensures v < 0x1_0000
  {
    var a: int, b: int := data[at], data[at + 1];
    a * 0x100 + b
  }

  function U32(data: seq<byte>, at: nat): (v: nat)
    requires at + 4 <= |data|
    ensures v < 0x1_0000_0000
  {
    U16(data, at) * 0x1_0000 + U16(data, at + 2)
  }

  /** A 16-bit value read as a signed one. */
  function Signed16(v: nat): (n: int)
    requires v < 0x1_0000
    ensures -0x8000 <= n < 0x8000
  {
    if v < 0x8000 then v else v - 0x1_0000
  }

  // ---- the directory

  const HEAD: seq<byte> := [0x68, 0x65, 0x61, 0x64]
  const HHEA: seq<byte> := [0x68, 0x68, 0x65, 0x61]
  const GLYF: seq<byte> := [0x67, 0x6C, 0x79, 0x66]
  const FVAR: seq<byte> := [0x66, 0x76, 0x61, 0x72]
  const OS2: seq<byte> := [0x4F, 0x53, 0x2F, 0x32]
  const WOFF: seq<byte> := [0x77, 0x4F, 0x46, 0x46]
  const WOF2: seq<byte> := [0x77, 0x4F, 0x46, 0x32]
  const OTTO: seq<byte> := [0x4F, 0x54, 0x54, 0x4F]
  const TTCF: seq<byte> := [0x74, 0x74, 0x63, 0x66]
  const TRUE: seq<byte> := [0x74, 0x72, 0x75, 0x65]

  function TableCount(data: seq<byte>): nat
    requires |data| >= 12
  {
    U16(data, 4)
  }

  /** A directory entry: behind the end of the file, pointing outside it, or
      naming a table inside. */
  datatype Entry = Gone | Outside | Inside(tag: seq<byte>, body: seq<byte>)

  function EntryAt(data: seq<byte>, i: nat): Entry {
    var entry := 12 + 16 * i;
    if entry + 16 > |data| then Gone
    else
      var offset, length := U32(data, entry + 8), U32(data, entry + 12);
      if offset + length > |data| then Outside
      else Inside(data[entry..entry + 4], data[offset..offset + length])
  }

  function Directory(data: seq<byte>): (entries: seq<Entry>)
    requires |data| >= 12
    ensures |entries| == TableCount(data)
  {
    seq(TableCount(data), i requires 0 <= i < TableCount(data) => EntryAt(data, i))
  }

  /** Every entry names a table inside the file. */
  ghost predicate Sound(entries: seq<Entry>) {
    forall i :: 0 <= i < |entries| ==> entries[i].Inside?
  }

  /** The table with this tag: the last usable duplicate wins. */
  function Find(entries: seq<Entry>, tag: seq<byte>): Option<seq<byte>> {
    if entries == [] then None
    else
      var e := entries[|entries| - 1];
      if e.Inside? && e.tag == tag then Some(e.body) else Find(entries[..|entries| - 1], tag)
  }

  /** Its bytes, none when there is no such table. */
  function TableOf(entries: seq<Entry>, tag: seq<byte>): seq<byte> {
    match Find(entries, tag)
    case Some(body) => body
    case None => []
  }

  function Lookup(tables: map<seq<byte>, seq<byte>>, tag: seq<byte>): seq<byte> {
    if tag in tables then tables[tag] else []
  }

  datatype FontError =
    | TooLarge | TooShort | CutShort | OutsideFile | Woff | Cff | Collection | NotTrueType
    | Variable | NoOutlines | NoHeadHhea | Restricted | Unreadable | NoFamily | NoGlyphs | BadFamily | ZeroUnitsPerEm

  ghost predicate Holds(tables: map<seq<byte>, seq<byte>>, entries: seq<Entry>) {
    forall tag :: Find(entries, tag) == if tag in tables then Some(tables[tag]) else None
  }

  lemma {:induction false} FindNext(entries: seq<Entry>, e: Entry, tag: seq<byte>)
    ensures Find(entries + [e], tag) == if e.Inside? && e.tag == tag then Some(e.body) else Find(entries, tag)
  {
    assert (entries + [e])[..|entries|] == entries;
  }

  lemma {:induction false} HoldsNext(tables: map<seq<byte>, seq<byte>>, entries: seq<Entry>, e: Entry)
    requires Holds(tables, entries) && e.Inside?
    ensures Holds(tables[e.tag := e.body], entries + [e])
  {
    forall tag: seq<byte>
      ensures Find(entries + [e], tag) == if tag in tables[e.tag := e.body] then Some(tables[e.tag := e.body][tag]) else None
    {
      FindNext(entries, e, tag);
    }
  }

  /** Reads one entry of the directory. */
  method ReadEntry(data: seq<byte>, i: nat) returns (e: Entry)
    ensures e == EntryAt(data, i)
  {
    var entry := 12 + 16 * i;
    if entry + 16 > |data| {
      return Gone;
    }
    var offset, length := U32(data, entry + 8), U32(data, entry + 12);
    if offset + length > |data| {
      return Outside;
    }
    e := Inside(data[entry..entry + 4], data[offset..offset + length]);
  }

  /** Reads the whole directory; the first bad entry refuses the file. */
  method Tables(data: seq<byte>) returns (r: Result<map<seq<byte>, seq<byte>>, FontError>)
    ensures |data| < 12 ==> r == Err(TooShort)
    ensures |data| >= 12 ==> (r.Ok? <==> Sound(Directory(data)))
    ensures |data| >= 12 && r.Ok? ==> Holds(r.value, Directory(data))
    ensures |data| >= 12 && r.Err? ==>
              exists i :: 0 <= i < |Directory(data)| && !Directory(data)[i].Inside? && Sound(Directory(data)[..i])
                          && r.error == if Directory(data)[i].Gone? then CutShort else OutsideFile
  {
    if |data| < 12 {
      return Err(TooShort);
    }
    ghost var entries := Directory(data);
    var count := U16(data, 4);
    var out: map<seq<byte>, seq<byte>> := map[];
    for i := 0 to count
      invariant Sound(entries[..i]) && Holds(out, entries[..i])
    {
      var e := ReadEntry(data, i);
      assert entries[..i + 1] == entries[..i] + [e];
      assert entries[i] == e;
      match e {
        case Gone => return Err(CutShort);
        case Outside => return Err(OutsideFile);
        case Inside(tag, body) =>
          HoldsNext(out, entries[..i], e);
          out := out[tag := body];
      }
    }
    assert entries[..count] == entries;
    r := Ok(out);
  }

  // ---- what is accepted

  const MAX_FONT_BYTES := 5 * 0x10_0000

  /** What the font parser says of a file it can read. */
  datatype Parsed = Parsed(typographic: string, family: string, subfamily: string, glyphs: nat, latinMissing: nat, validName: bool)

  datatype Info = Info(family: string, subfamily: string, fsType: nat, weight: nat, bold: bool, italic: bool, glyphs: nat, latinMissing: nat)

  lemma {:induction false} VersionNumber(data: seq<byte>)
    requires |data| >= 4
    ensures U32(data, 0) == 0x1_0000 <==> data[..4] == [0, 1, 0, 0]
  {
    assert data[..4] == [data[0], data[1], data[2], data[3]];
  }

  /** What an accepted file is known to be. */
  ghost predicate Embeddable(entries: seq<Entry>) {
    && Sound(entries)
    && Find(entries, GLYF).Some? && Find(entries, FVAR).None?
    && |TableOf(entries, HEAD)| >= 46 && |TableOf(entries, HHEA)| >= 8
    && (|TableOf(entries, OS2)| >= 10 ==> U16(TableOf(entries, OS2), 8) / 2 % 2 == 0)
  }

  predicate Accepted(version: seq<byte>) {
    version == [0, 1, 0, 0] || version == TRUE
  }

  /** What the first four bytes rule out. */
  method CheckVersion(data: seq<byte>) returns (e: Option<FontError>)
    requires |data| >= 4
    ensures e.None? <==> Accepted(data[..4])
    ensures e.Some? ==>
              e.value == if data[..4] == WOFF || data[..4] == WOF2 then Woff else if data[..4] == OTTO then Cff
                         else if data[..4] == TTCF then Collection else NotTrueType
  {
    var version := data[..4];
    VersionNumber(data);
    assert !Accepted(WOFF) && !Accepted(WOF2) && !Accepted(OTTO) && !Accepted(TTCF);
    if version == WOFF || version == WOF2 {
      return Some(Woff);
    }
    if version == OTTO {
      return Some(Cff);
    }
    if version == TTCF {
      return Some(Collection);
    }
    if U32(data, 0) != 0x1_0000 && version != TRUE {
      return Some(NotTrueType);
    }
    e := None;
  }

  /** What the tables rule out. */
  method CheckTables(tables: map<seq<byte>, seq<byte>>, ghost entries: seq<Entry>) returns (e: Option<FontError>)
    requires Sound(entries) && Holds(tables, entries)
    ensures e.None? <==> Embeddable(entries)
    ensures e == Some(Variable) <==> Find(entries, FVAR).Some?
    ensures e == Some(NoOutlines) <==> Find(entries, FVAR).None? && Find(entries, GLYF).None?
    ensures e.Some? && e.value !in {Variable, NoOutlines} ==>
              e.value == if |TableOf(entries, HEAD)| < 46 || |TableOf(entries, HHEA)| < 8 then NoHeadHhea else Restricted
  {
    assert Find(entries, FVAR) == if FVAR in tables then Some(tables[FVAR]) else None;
    assert Find(entries, GLYF) == if GLYF in tables then Some(tables[GLYF]) else None;
    TablesMatch(tables, entries);
    if FVAR in tables {
      return Some(Variable);
    }
    if GLYF !in tables {
      return Some(NoOutlines);
    }
    var head, os2 := Lookup(tables, HEAD), Lookup(tables, OS2);
    if |head| < 46 || |Lookup(tables, HHEA)| < 8 {
      return Some(NoHeadHhea);
    }
    if |os2| >= 10 && U16(os2, 8) / 2 % 2 != 0 {
      return Some(Restricted);
    }
    e := None;
  }

  lemma {:induction false} TablesMatch(tables: map<seq<byte>, seq<byte>>, entries: seq<Entry>)
    requires Holds(tables, entries)
    ensures Lookup(tables, HEAD) == TableOf(entries, HEAD) && Lookup(tables, HHEA) == TableOf(entries, HHEA)
    ensures Lookup(tables, OS2) == TableOf(entries, OS2)
  {
    assert Find(entries, HEAD) == if HEAD in tables then Some(tables[HEAD]) else None;
    assert Find(entries, HHEA) == if HHEA in tables then Some(tables[HHEA]) else None;
    assert Find(entries, OS2) == if OS2 in tables then Some(tables[OS2]) else None;
  }

  /** Accepts exactly the TrueType files of bounded size with a sound directory,
      outlines, the tables the renderer needs, no embedding restriction, and a
      name and glyphs the parser can read. */
  method Inspect(data: seq<byte>, parsed: Option<Parsed>) returns (r: Result<Info, FontError>)
    ensures r.Ok? <==>
              && 12 <= |data| <= 5242880
              && (data[..4] == [0, 1, 0, 0] || data[..4] == TRUE)
              && (forall i :: 0 <= i < |Directory(data)| ==> Directory(data)[i].Inside?)
              && Find(Directory(data), GLYF).Some? && Find(Directory(data), FVAR).None?
              && |TableOf(Directory(data), HEAD)| >= 46 && |TableOf(Directory(data), HHEA)| >= 8
              && (|TableOf(Directory(data), OS2)| >= 10 ==> U16(TableOf(Directory(data), OS2), 8) / 2 % 2 == 0)
              && parsed.Some? && parsed.value.glyphs > 0 && parsed.value.validName
              && (parsed.value.typographic != "" || parsed.value.family != "")
    ensures r.Ok? ==>
              var head, os2 := TableOf(Directory(data), HEAD), TableOf(Directory(data), OS2);
              && r.value.family == (if parsed.value.typographic != "" then parsed.value.typographic else parsed.value.family)
              && r.value.bold == (U16(head, 44) % 2 == 1) && r.value.italic == (U16(head, 44) / 2 % 2 == 1)
              && r.value.weight == (if |os2| >= 10 then U16(os2, 4) else 400)
              && r.value.fsType == (if |os2| >= 10 then U16(os2, 8) else 0)
              && (r.value.subfamily, r.value.glyphs, r.value.latinMissing)
                 == (parsed.value.subfamily, parsed.value.glyphs, parsed.value.latinMissing)
    ensures r == Err(TooLarge) <==> |data| > 5242880
    ensures r == Err(TooShort) <==> |data| < 12
    ensures r == Err(Woff) <==> 12 <= |data| <= 5242880 && (data[..4] == WOFF || data[..4] == WOF2)
    ensures r == Err(Cff) <==> 12 <= |data| <= 5242880 && data[..4] == OTTO
    ensures r == Err(Collection) <==> 12 <= |data| <= 5242880 && data[..4] == TTCF
    ensures r == Err(NotTrueType) <==>
              12 <= |data| <= 5242880 && data[..4] !in [WOFF, WOF2, OTTO, TTCF, [0, 1, 0, 0], TRUE]
  {
    if |data| > MAX_FONT_BYTES {
      return Err(TooLarge);
    }
    if |data| < 12 {
      return Err(TooShort);
    }
    var wrong := CheckVersion(data);
    if wrong.Some? {
      return Err(wrong.value);
    }
    var found := Tables(data);
    if found.Err? {
      return Err(found.error);
    }
    var tables := found.value;
    TablesMatch(tables, Directory(data));
    wrong := CheckTables(tables, Directory(data));
    if wrong.Some? {
      return Err(wrong.value);
    }
    var head, os2 := Lookup(tables, HEAD), Lookup(tables, OS2);
    var info := Info("", "", 0, 400, false, false, 0, 0);
    if |os2| >= 10 {
      info := info.(weight := U16(os2, 4), fsType := U16(os2, 8));
    }
    var macStyle := U16(head, 44);
    info := info.(bold := macStyle % 2 != 0, italic := macStyle / 2 % 2 != 0);
    if parsed.None? {
      return Err(Unreadable);
    }
    var font := parsed.value;
    info := info.(family := font.typographic);
    if info.family == "" {
      info := info.(family := font.family);
      if info.family == "" {
        return Err(NoFamily);
      }
    }
    info := info.(subfamily := font.subfamily, glyphs := font.glyphs);
    if info.glyphs == 0 {
      return Err(NoGlyphs);
    }
    info := info.(latinMissing := font.latinMissing);
    if !font.validName {
      return Err(BadFamily);
    }
    r := Ok(info);
  }

  // ---- what is used

  datatype Metrics = Metrics(ascent: real, descent: real)

  /** The metrics the last usable head and hhea tables give. */
  function MetricsOf(head: seq<byte>, hhea: seq<byte>): Result<Metrics, FontError> {
    if |head| < 20 || |hhea| < 8 then Err(NoHeadHhea)
    else
      var unitsPerEm := U16(head, 18);
      if unitsPerEm == 0 then Err(ZeroUnitsPerEm)
      else Ok(Metrics(Signed16(U16(hhea, 4)) as real / unitsPerEm as real, -(Signed16(U16(hhea, 6)) as real) / unitsPerEm as real))
  }

  /** The last usable head and hhea tables among the first i entries. */
  ghost predicate HaveRead(entries: seq<Entry>, i: nat, head: seq<byte>, hhea: seq<byte>) {
    i <= |entries| && head == TableOf(entries[..i], HEAD) && hhea == TableOf(entries[..i], HHEA)
  }

  lemma {:induction false} ReadOneMore(entries: seq<Entry>, i: nat, head: seq<byte>, hhea: seq<byte>)
    requires i < |entries| && HaveRead(entries, i, head, hhea)
    ensures match entries[i]
            case Inside(tag, body) =>
              HaveRead(entries, i + 1, if tag == HEAD then body else head, if tag == HHEA then body else hhea)
            case _ => HaveRead(entries, i + 1, head, hhea)
  {
    assert entries[..i + 1] == entries[..i] + [entries[i]];
    FindNext(entries[..i], entries[i], HEAD);
    FindNext(entries[..i], entries[i], HHEA);
  }

  lemma {:induction false} ReadToTheEnd(data: seq<byte>, i: nat, head: seq<byte>, hhea: seq<byte>)
    requires |data| >= 12 && i < TableCount(data) && EntryAt(data, i).Gone? && HaveRead(Directory(data), i, head, hhea)
    ensures HaveRead(Directory(data), TableCount(data), head, hhea)
  {
    NothingBehindTheEnd(data, HEAD, i, TableCount(data));
    NothingBehindTheEnd(data, HHEA, i, TableCount(data));
  }

  /** A two-octet number, and the same in two's complement. */
  function Unsigned(high: byte, low: byte): int {
    var a: int, b: int := high, low;
    256 * a + b
  }

  function SignedOf(high: byte, low: byte): int {
    if high >= 128 then Unsigned(high, low) - 65536 else Unsigned(high, low)
  }

  /** The metrics are there when both tables are long enough and units per em are not zero;
      they are ascender and descender, two's complement at octets 4 and 6 of hhea, in units
      of the number at octet 18 of head, and depth counts downwards. */
  lemma {:induction false} MetricsAreExact(head: seq<byte>, hhea: seq<byte>)
    ensures var r := MetricsOf(head, hhea);
            && (r.Ok? <==> |head| >= 20 && |hhea| >= 8 && !(head[18] == 0 && head[19] == 0))
            && (r.Ok? ==> r.value.ascent * Unsigned(head[18], head[19]) as real == SignedOf(hhea[4], hhea[5]) as real)
            && (r.Ok? ==> r.value.descent * Unsigned(head[18], head[19]) as real == -(SignedOf(hhea[6], hhea[7]) as real))
  {
    if |head| >= 20 && |hhea| >= 8 && U16(head, 18) != 0 {
      QuotientTimes(Signed16(U16(hhea, 4)), U16(head, 18));
      QuotientTimes(-Signed16(U16(hhea, 6)), U16(head, 18));
    }
  }

  lemma QuotientTimes(a: int, b: int)
    requires b != 0
    ensures (a as real / b as real) * b as real == a as real
  {
  }

  /** Reads the metrics, skipping entries that point outside the file and
      stopping at its end. */
  method ReadMetrics(data: seq<byte>) returns (r: Result<Metrics, FontError>)
    ensures r == if |data| < 12 then Err(TooShort)
                 else MetricsOf(TableOf(Directory(data), HEAD), TableOf(Directory(data), HHEA))
  {
    if |data| < 12 {
      return Err(TooShort);
    }
    ghost var entries := Directory(data);
    var count := U16(data, 4);
    var head, hhea: seq<byte> := [], [];
    assert HEAD[1] != HHEA[1];
    var i := 0;
    while i < count
      invariant 0 <= i <= count
      invariant HaveRead(entries, i, head, hhea)
    {
      var e := ReadEntry(data, i);
      assert e == entries[i];
      ReadOneMore(entries, i, head, hhea);
      match e {
        case Gone =>
          ReadToTheEnd(data, i, head, hhea);
          break;
        case Outside =>
        case Inside(tag, body) =>
          if tag == HEAD {
            head := body;
          } else if tag == HHEA {
            hhea := body;
          }
      }
      i := i + 1;
    }
    assert HaveRead(entries, count, head, hhea) && entries[..count] == entries;
    if |head| < 20 || |hhea| < 8 {
      return Err(NoHeadHhea);
    }
    var unitsPerEm := U16(head, 18);
    if unitsPerEm == 0 {
      return Err(ZeroUnitsPerEm);
    }
    var ascender, descender := Signed16(U16(hhea, 4)), Signed16(U16(hhea, 6));
    r := Ok(Metrics(ascender as real / unitsPerEm as real, -(descender as real) / unitsPerEm as real));
  }

  lemma {:induction false} NothingBehindTheEnd(data: seq<byte>, tag: seq<byte>, i: nat, n: nat)
    requires |data| >= 12 && i <= n <= TableCount(data) && (i < n ==> EntryAt(data, i).Gone?)
    ensures Find(Directory(data)[..n], tag) == Find(Directory(data)[..i], tag)
  {
    if i < n {
      NothingBehindTheEnd(data, tag, i, n - 1);
      assert EntryAt(data, n - 1).Gone?;
      assert Directory(data)[..n] == Directory(data)[..n - 1] + [Gone];
      FindNext(Directory(data)[..n - 1], Gone, tag);
    }
  }

  // ---- the two agree

  /** Both readers on one file. Whenever the library's reader takes the
      directory, the renderer's reader sees the library's own head and hhea. */
  method ReadersAgree(data: seq<byte>) returns (tables: Result<map<seq<byte>, seq<byte>>, FontError>, metrics: Result<Metrics, FontError>)
    ensures |data| >= 12 ==> (tables.Ok? <==> Sound(Directory(data)))
    ensures tables.Ok? ==> metrics == MetricsOf(Lookup(tables.value, HEAD), Lookup(tables.value, HHEA))
    ensures tables == Err(TooShort) ==> metrics == Err(TooShort)
  {
    tables := Tables(data);
    metrics := ReadMetrics(data);
    if tables.Ok? {
      TablesMatch(tables.value, Directory(data));
    }
  }

  /** A file is accepted, and later its metrics are read: that fails if and only
      if the file's head table states zero units per em. */
  method AcceptedFontsHaveMetrics(data: seq<byte>, parsed: Option<Parsed>) returns (info: Result<Info, FontError>, metrics: Result<Metrics, FontError>)
    ensures info.Ok? ==>
              && |data| >= 12 && |TableOf(Directory(data), HEAD)| >= 20
              && (metrics.Err? <==> U16(TableOf(Directory(data), HEAD), 18) == 0)
              && (metrics.Err? ==> metrics.error == ZeroUnitsPerEm)
  {
    info := Inspect(data, parsed);
    metrics := ReadMetrics(data);
  }

  /** A table is the one of the last usable entry with its tag; there is none exactly when no
      usable entry has the tag. */
  lemma {:induction false} FindIsExact(entries: seq<Entry>, tag: seq<byte>)
    ensures match Find(entries, tag)
            case Some(body) => exists i :: 0 <= i < |entries| && entries[i] == Inside(tag, body)
                                           && forall k :: i < k < |entries| ==> !(entries[k].Inside? && entries[k].tag == tag)
            case None => forall i :: 0 <= i < |entries| ==> !(entries[i].Inside? && entries[i].tag == tag)
  {
    if entries != [] {
      var front, e := entries[..|entries| - 1], entries[|entries| - 1];
      FindIsExact(front, tag);
      if e.Inside? && e.tag == tag {
        assert entries[|entries| - 1] == Inside(tag, e.body);
      } else if Find(front, tag).Some? {
        var i :| 0 <= i < |front| && front[i] == Inside(tag, Find(front, tag).value)
                 && forall k :: i < k < |front| ==> !(front[k].Inside? && front[k].tag == tag);
        assert entries[i] == front[i];
      }
    }
  }

  /** The four-octet number at a place, most significant octet first. */
  function Octets4(data: seq<byte>, at: nat): int
    requires at + 4 <= |data|
  {
    var a: int, b: int, c: int, d: int := data[at], data[at + 1], data[at + 2], data[at + 3];
    0x100_0000 * a + 0x1_0000 * b + 0x100 * c + d
  }

  /** Entry i has sixteen octets behind the first twelve of the file: tag, checksum, offset
      and length of its table. */
  lemma {:induction false} EntryIsExact(data: seq<byte>, i: nat)
    ensures var at := 12 + 16 * i;
            && (EntryAt(data, i).Gone? <==> at + 16 > |data|)
            && (at + 16 <= |data| ==>
                  var offset, length := Octets4(data, at + 8), Octets4(data, at + 12);
                  if offset + length > |data| then EntryAt(data, i) == Outside
                  else EntryAt(data, i) == Inside([data[at], data[at + 1], data[at + 2], data[at + 3]], data[offset..offset + length]))
  {
    var at := 12 + 16 * i;
    if at + 16 <= |data| {
      assert data[at..at + 4] == [data[at], data[at + 1], data[at + 2], data[at + 3]];
    }
  }

  /** The tags spell their names. */
  lemma TagsSpell()
    ensures forall k :: 0 <= k < 4 ==> HEAD[k] == "head"[k] as int && HHEA[k] == "hhea"[k] as int && GLYF[k] == "glyf"[k] as int
    ensures forall k :: 0 <= k < 4 ==> FVAR[k] == "fvar"[k] as int && OS2[k] == "OS/2"[k] as int && TRUE[k] == "true"[k] as int
    ensures forall k :: 0 <= k < 4 ==> WOFF[k] == "wOFF"[k] as int && WOF2[k] == "wOF2"[k] as int
    ensures forall k :: 0 <= k < 4 ==> OTTO[k] == "OTTO"[k] as int && TTCF[k] == "ttcf"[k] as int
  {
  }

  /** Of several entries with one tag the last one's table is read. */
  lemma {:induction false} LastDuplicateWins(entries: seq<Entry>, i: nat)
    requires i < |entries| && entries[i].Inside?
    requires forall k :: i < k < |entries| ==> !(entries[k].Inside? && entries[k].tag == entries[i].tag)
    ensures Find(entries, entries[i].tag) == Some(entries[i].body)
  {
    if i < |entries| - 1 {
      LastDuplicateWins(entries[..|entries| - 1], i);
    }
  }
}
