/** The opaque cursors of the paged listings, and the participant listing over
    them (internal/participant/repository.go, internal/platform/pagination/pagination.go). */
module Cursors {
  import opened Wrappers
  import opened Bytes
  import opened Codecs
  import opened Paging

  /** The octets of a text of octets, and back. */
  predicate Octetic(s: string) {
    forall i :: 0 <= i < |s| ==> s[i] < '\U{100}'
  }

  function OctetsOf(s: string): seq<byte>
    requires Octetic(s)
  {
    seq(|s|, i requires 0 <= i < |s| => s[i] as int)
  }

  function TextOf(bs: seq<byte>): (s: string)
    ensures Octetic(s)
  {
    seq(|bs|, i requires 0 <= i < |bs| => bs[i] as char)
  }

  lemma TextComesBack(s: string)
    requires Octetic(s)
    ensures TextOf(OctetsOf(s)) == s
  {
  }

  lemma {:induction false} EncodedIsEmpty(bs: seq<byte>)
    ensures Encode64(UrlAlphabet, bs) == "" <==> bs == []
  {
    assert |Sextets(bs)| == 0 <==> bs == [];
  }

  lemma EmptyDecodes()
    ensures Decode64(UrlAlphabet, "") == Some([]) && TextOf([]) == ""
  {
  }

  // ---- listings over opaque cursors

  /** How a listing writes keys as cursors and reads them back. */
  datatype Scheme<!K> = Scheme(encode: K -> string, decode: string -> Option<K>) {
    /** No cursor of the key is taken for the end, and it leads back to the key. */
    ghost predicate Keeps(key: K) {
      encode(key) != "" && decode(encode(key)) == Some(key)
    }
  }

  /** What a page hands its client to go on with. */
  function NextCursor<K>(page: Page<K>, scheme: Scheme<K>): string {
    if page.next.Some? then scheme.encode(page.next.value) else ""
  }

  /** One page, from and to an opaque cursor; a cursor that does not decode starts
      from the beginning. */
  method ListFrom<K>(rows: seq<Row<K>>, limit: int, cursor: string, scheme: Scheme<K>, less: (K, K) -> bool)
    returns (items: seq<Row<K>>, next: string)
    ensures var page := PageOf(rows, scheme.decode(cursor), NormalizeLimit(limit), less);
            && items == page.items
            && next == NextCursor(page, scheme)
  {
    var page := ListPage(rows, scheme.decode(cursor), NormalizeLimit(limit), less);
    items := page.items;
    next := NextCursor(page, scheme);
  }

  /** What a client gets that follows the cursors it is handed, from a given one
      until it is handed the empty cursor. */
  function CursorWalk<K>(rows: seq<Row<K>>, limit: int, cursor: string, scheme: Scheme<K>, less: (K, K) -> bool, fuel: nat): seq<Row<K>>
    decreases fuel
  {
    var page := PageOf(rows, scheme.decode(cursor), NormalizeLimit(limit), less);
    var next := NextCursor(page, scheme);
    if next == "" || fuel == 0 then page.items else page.items + CursorWalk(rows, limit, next, scheme, less, fuel - 1)
  }

  lemma CursorWalkGoesOn<K>(rows: seq<Row<K>>, limit: int, cursor: string, scheme: Scheme<K>, less: (K, K) -> bool, fuel: nat,
                            page: Page<K>, next: string, more: seq<Row<K>>)
    requires page == PageOf(rows, scheme.decode(cursor), NormalizeLimit(limit), less) && next == NextCursor(page, scheme)
    requires fuel >= 1 && next != "" && CursorWalk(rows, limit, next, scheme, less, fuel - 1) == more
    ensures CursorWalk(rows, limit, cursor, scheme, less, fuel) == page.items + more
  {
  }

  /** Cursors that keep their keys lead where the keys lead. */
  lemma {:induction false} CursorWalkIsWalk<K>(rows: seq<Row<K>>, limit: int, cursor: string, after: Option<K>, scheme: Scheme<K>,
                                               less: (K, K) -> bool, fuel: nat)
    requires scheme.decode(cursor) == after && forall i :: 0 <= i < |rows| ==> scheme.Keeps(rows[i].key)
    ensures CursorWalk(rows, limit, cursor, scheme, less, fuel) == Walk(rows, after, NormalizeLimit(limit), fuel, less)
    decreases fuel
  {
    var n := NormalizeLimit(limit);
    var page := PageOf(rows, after, n, less);
    if page.next.Some? && fuel > 0 {
      NextIsAKey(rows, after, n, less);
      assert scheme.Keeps(page.next.value);
      var next, more := NextCursor(page, scheme), Walk(rows, page.next, n, fuel - 1, less);
      CursorWalkIsWalk(rows, limit, next, page.next, scheme, less, fuel - 1);
      CursorWalkGoesOn(rows, limit, cursor, scheme, less, fuel, page, next, more);
      WalkGoesOn(rows, after, n, fuel, page, more, less);
    }
  }

  lemma {:induction false} NextIsAKey<K>(rows: seq<Row<K>>, after: Option<K>, limit: nat, less: (K, K) -> bool)
    requires limit >= 1 && PageOf(rows, after, limit, less).next.Some?
    ensures exists i :: 0 <= i < |rows| && rows[i].key == PageOf(rows, after, limit, less).next.value
  {
    RestIsOfRows(rows, after, limit - 1, less);
  }

  lemma {:induction false} RestIsOfRows<K>(rows: seq<Row<K>>, after: Option<K>, k: nat, less: (K, K) -> bool)
    requires k < |Rest(rows, after, less)|
    ensures Rest(rows, after, less)[k] in rows
  {
    if k < |Rest(rows[..|rows| - 1], after, less)| {
      RestIsOfRows(rows[..|rows| - 1], after, k, less);
    }
  }

  /** A client that starts without a cursor, or with one that decodes to nothing,
      gets every row once and in order, whatever limit it asks for. */
  lemma {:induction false} CursorsReturnEverything<K(!new)>(rows: seq<Row<K>>, limit: int, cursor: string, scheme: Scheme<K>, less: (K, K) -> bool, fuel: nat)
    requires StrictOrder(less) && Ascending(rows, less) && |rows| <= fuel && scheme.decode(cursor).None?
    requires forall i :: 0 <= i < |rows| ==> scheme.Keeps(rows[i].key)
    ensures CursorWalk(rows, limit, cursor, scheme, less, fuel) == rows
  {
    CursorWalkIsWalk(rows, limit, cursor, None, scheme, less, fuel);
    NothingBefore(rows, less);
    WalkReturnsRest(rows, None, NormalizeLimit(limit), fuel, less);
  }

  /** The next page starts where a page ended, and an empty cursor means that there
      is none. */
  lemma {:induction false} CursorContinues<K>(page: Page<K>, scheme: Scheme<K>)
    requires scheme.decode("").None? && (page.next.Some? ==> scheme.Keeps(page.next.value))
    ensures NextCursor(page, scheme) == "" <==> page.next.None?
    ensures scheme.decode(NextCursor(page, scheme)) == page.next
  {
  }

  // ---- BIB cursors

  lemma DigitsAreOctetic(s: string)
    requires AllDigits(s)
    ensures Octetic(s) && Octetic("-" + s) && '|' !in s && '|' !in "-" + s
  {
  }

  lemma {:induction false} NumberIsOctetic(n: int)
    ensures Octetic(Itoa(n)) && Itoa(n) != "" && '|' !in Itoa(n)
  {
    var digits := NatText(if n < 0 then -n else n);
    NatTextRoundTrip(if n < 0 then -n else n);
    DigitsAreOctetic(digits);
  }

  function EncodeBib(bib: int): string {
    NumberIsOctetic(bib);
    Encode64(UrlAlphabet, OctetsOf(Itoa(bib)))
  }

  function DecodeBib(raw: string): Option<int> {
    match Decode64(UrlAlphabet, raw)
    case None => None
    case Some(bs) => Atoi(TextOf(bs))
  }

  /** A BIB cursor decodes to its BIB, is never empty, and an empty cursor
      decodes to nothing. */
  lemma {:induction false} BibCursorRoundTrip(bib: int)
    requires MIN_INT <= bib <= MAX_INT
    ensures DecodeBib(EncodeBib(bib)) == Some(bib) && EncodeBib(bib) != "" && DecodeBib("") == None
  {
    NumberIsOctetic(bib);
    Base64RoundTrip(UrlAlphabet, OctetsOf(Itoa(bib)));
    TextComesBack(Itoa(bib));
    DecimalRoundTrip(bib);
    EncodedIsEmpty(OctetsOf(Itoa(bib)));
    EmptyDecodes();
  }

  const BIBS := Scheme(EncodeBib, DecodeBib)

  /** Participants by BIB: following the cursors returns every one once, in order. */
  lemma {:induction false} ParticipantsAreAllListed(rows: seq<Row<int>>, limit: int, cursor: string, fuel: nat)
    requires Ascending(rows, (a: int, b: int) => a < b) && |rows| <= fuel && DecodeBib(cursor).None?
    requires forall i :: 0 <= i < |rows| ==> MIN_INT <= rows[i].key <= MAX_INT
    ensures CursorWalk(rows, limit, cursor, BIBS, (a: int, b: int) => a < b, fuel) == rows
  {
    forall i | 0 <= i < |rows|
      ensures BIBS.Keeps(rows[i].key)
    {
      BibCursorRoundTrip(rows[i].key);
    }
    CursorsReturnEverything(rows, limit, cursor, BIBS, (a: int, b: int) => a < b, fuel);
  }

  // ---- two-part cursors: id, a bar, and whatever the name holds

  const BAR: byte := 0x7C

  /** Where the first bar is, or the length. */
  function FirstBar(bs: seq<byte>): (i: nat)
    ensures i <= |bs| && BAR !in bs[..i] && (i < |bs| ==> bs[i] == BAR)
  {
    if bs == [] then 0 else if bs[0] == BAR then 0 else 1 + FirstBar(bs[1..])
  }

  function Cut(bs: seq<byte>): Option<(seq<byte>, seq<byte>)> {
    var i := FirstBar(bs);
    if i == |bs| then None else Some((bs[..i], bs[i + 1..]))
  }

  lemma {:induction false} FirstBarIs(bs: seq<byte>, n: nat)
    requires n < |bs| && bs[n] == BAR && BAR !in bs[..n]
    ensures FirstBar(bs) == n
  {
    if n > 0 {
      assert bs[0] == bs[..n][0];
      assert bs[1..][..n - 1] == bs[..n][1..];
      FirstBarIs(bs[1..], n - 1);
    }
  }

  lemma {:induction false} FirstBarAtMost(bs: seq<byte>, n: nat)
    requires n < |bs| && bs[n] == BAR
    ensures FirstBar(bs) <= n
  {
    if n > 0 && bs[0] != BAR {
      FirstBarAtMost(bs[1..], n - 1);
    }
  }

  lemma {:induction false} CutAtFirstBar(id: seq<byte>, rest: seq<byte>)
    requires BAR !in id
    ensures Cut(id + [BAR] + rest) == Some((id, rest))
  {
    var bs := id + [BAR] + rest;
    assert bs[..|id|] == id && bs[|id| + 1..] == rest;
    FirstBarIs(bs, |id|);
  }

  function EncodeTeam(name: seq<byte>, id: seq<byte>): string {
    Encode64(UrlAlphabet, id + [BAR] + name)
  }

  /** The name and the id, or nothing. */
  function DecodeTeam(raw: string): Option<(seq<byte>, seq<byte>)> {
    match Decode64(UrlAlphabet, raw)
    case None => None
    case Some(bs) =>
      match Cut(bs)
      case None => None
      case Some((id, name)) => if id == [] then None else Some((name, id))
  }

  /** A team cursor decodes to the name and id it was made of, whatever the name
      holds, exactly when the id is not empty and holds no bar. */
  lemma {:induction false} TeamCursorRoundTrip(name: seq<byte>, id: seq<byte>)
    ensures DecodeTeam(EncodeTeam(name, id)) == Some((name, id)) <==> id != [] && BAR !in id
  {
    var bs := id + [BAR] + name;
    Base64RoundTrip(UrlAlphabet, bs);
    if BAR !in id {
      CutAtFirstBar(id, name);
    } else {
      var k :| 0 <= k < |id| && id[k] == BAR;
      assert bs[k] == BAR;
      FirstBarAtMost(bs, k);
      assert |bs[..FirstBar(bs)]| < |id|;
    }
  }

  const TEAMS := Scheme((key: (seq<byte>, seq<byte>)) => EncodeTeam(key.0, key.1), DecodeTeam)

  /** Teams by name and id, whatever the order of names is: every one is returned once,
      in order. */
  lemma {:induction false} TeamsAreAllListed(rows: seq<Row<(seq<byte>, seq<byte>)>>, limit: int, cursor: string,
                                             less: ((seq<byte>, seq<byte>), (seq<byte>, seq<byte>)) -> bool, fuel: nat)
    requires StrictOrder(less) && Ascending(rows, less) && |rows| <= fuel && DecodeTeam(cursor).None?
    requires forall i :: 0 <= i < |rows| ==> rows[i].key.1 != [] && BAR !in rows[i].key.1
    ensures CursorWalk(rows, limit, cursor, TEAMS, less, fuel) == rows
  {
    forall i | 0 <= i < |rows|
      ensures TEAMS.Keeps(rows[i].key)
    {
      TeamCursorRoundTrip(rows[i].key.0, rows[i].key.1);
      EncodedIsEmpty(rows[i].key.1 + [BAR] + rows[i].key.0);
    }
    CursorsReturnEverything(rows, limit, cursor, TEAMS, less, fuel);
  }

  /** The cursor of listings ordered by creation time: nanoseconds, a bar, an id. */
  function EncodeTimed(nanos: int, id: seq<byte>): string {
    NumberIsOctetic(nanos);
    Encode64(UrlAlphabet, OctetsOf(Itoa(nanos)) + [BAR] + id)
  }

  function DecodeTimed(raw: string): Option<(int, seq<byte>)> {
    if raw == "" then None
    else match Decode64(UrlAlphabet, raw)
      case None => None
      case Some(bs) =>
        match Cut(bs)
        case None => None
        case Some((first, id)) =>
          match Atoi(TextOf(first))
          case None => None
          case Some(nanos) => Some((nanos, id))
  }

  /** It decodes to the time and the id, whatever the id holds. */
  lemma {:induction false} TimedCursorRoundTrip(nanos: int, id: seq<byte>)
    requires MIN_INT <= nanos <= MAX_INT
    ensures DecodeTimed(EncodeTimed(nanos, id)) == Some((nanos, id))
  {
    NumberIsOctetic(nanos);
    var first := OctetsOf(Itoa(nanos));
    NumberHasNoBar(nanos);
    Base64RoundTrip(UrlAlphabet, first + [BAR] + id);
    EncodedIsEmpty(first + [BAR] + id);
    CutAtFirstBar(first, id);
    TextComesBack(Itoa(nanos));
    DecimalRoundTrip(nanos);
  }

  const TIMES := Scheme((key: (int, seq<byte>)) => EncodeTimed(key.0, key.1), DecodeTimed)

  /** Rows by creation time and id, in either direction: every one is returned once,
      in order. */
  lemma {:induction false} TimedRowsAreAllListed(rows: seq<Row<(int, seq<byte>)>>, limit: int, cursor: string,
                                                 less: ((int, seq<byte>), (int, seq<byte>)) -> bool, fuel: nat)
    requires StrictOrder(less) && Ascending(rows, less) && |rows| <= fuel && DecodeTimed(cursor).None?
    requires forall i :: 0 <= i < |rows| ==> MIN_INT <= rows[i].key.0 <= MAX_INT
    ensures CursorWalk(rows, limit, cursor, TIMES, less, fuel) == rows
  {
    forall i | 0 <= i < |rows|
      ensures TIMES.Keeps(rows[i].key)
    {
      TimedCursorRoundTrip(rows[i].key.0, rows[i].key.1);
      assert DecodeTimed("").None?;
    }
    CursorsReturnEverything(rows, limit, cursor, TIMES, less, fuel);
  }

  lemma {:induction false} NumberHasNoBar(n: int)
    ensures Octetic(Itoa(n)) && BAR !in OctetsOf(Itoa(n))
  {
    NumberIsOctetic(n);
    var s := Itoa(n);
    forall i | 0 <= i < |s|
      ensures OctetsOf(s)[i] != BAR
    {
      assert s[i] in s;
    }
  }
}
