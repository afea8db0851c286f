/** The text encodings stored hashes and page cursors are built from: unpadded
    base64 (section 4 and section 5 of RFC 4648, without padding as section 3.2
    allows), decimal numbers, and fields joined by a separator, each as Go's
    standard library reads and writes it. */
module Codecs {
  import opened Wrappers
  import opened Bytes

  // ---- base64

  datatype Alphabet = StdAlphabet | UrlAlphabet

  function Digit(alphabet: Alphabet, v: int): (c: char)
    requires 0 <= v < 64
  {
    if v < 26 then 'A' + v as char
    else if v < 52 then 'a' + (v - 26) as char
    else if v < 62 then '0' + (v - 52) as char
    else if v == 62 then (if alphabet.StdAlphabet? then '+' else '-')
    else if alphabet.StdAlphabet? then '/' else '_'
  }

  /** The value of a character, -1 outside the alphabet. */
  function DigitValue(alphabet: Alphabet, c: char): (v: int)
    ensures -1 <= v < 64
  {
    if 'A' <= c <= 'Z' then c as int - 'A' as int
    else if 'a' <= c <= 'z' then c as int - 'a' as int + 26
    else if '0' <= c <= '9' then c as int - '0' as int + 52
    else if c == Digit(alphabet, 62) then 62
    else if c == Digit(alphabet, 63) then 63
    else -1
  }

  lemma DigitIsExact(alphabet: Alphabet, v: int)
    requires 0 <= v < 64
    ensures var c := Digit(alphabet, v);
            DigitValue(alphabet, c) == v && c != '\r' && c != '\n' && c != '$' && c != '|' && c != '='
  {
  }

  type sextet = v: int | 0 <= v < 64

  // the four sextets of three octets, and the other way round

  function First(b0: byte): sextet { b0 / 4 }
  function Second(b0: byte, b1: byte): sextet { b0 % 4 * 16 + b1 / 16 }
  function Third(b1: byte, b2: byte): sextet { b1 % 16 * 4 + b2 / 64 }
  function Fourth(b2: byte): sextet { b2 % 64 }

  function Octet0(v0: sextet, v1: sextet): byte {
    var a: int, b: int := v0, v1;
    a * 4 + b / 16
  }

  function Octet1(v1: sextet, v2: sextet): byte {
    var a: int, b: int := v1, v2;
    a % 16 * 16 + b / 4
  }

  function Octet2(v2: sextet, v3: sextet): byte {
    var a: int, b: int := v2, v3;
    a % 4 * 64 + b
  }

  lemma OctetsComeBack(b0: byte, b1: byte, b2: byte)
    ensures Octet0(First(b0), Second(b0, b1)) == b0
    ensures Octet1(Second(b0, b1), Third(b1, b2)) == b1
    ensures Octet2(Third(b1, b2), Fourth(b2)) == b2
  {
  }

  /** Three octets become four sextets; a last one or two become two or three,
      filled up with zero bits. */
  function Sextets(bs: seq<byte>): seq<sextet> {
    if bs == [] then []
    else if |bs| == 1 then [First(bs[0]), Second(bs[0], 0)]
    else if |bs| == 2 then [First(bs[0]), Second(bs[0], bs[1]), Third(bs[1], 0)]
    else [First(bs[0]), Second(bs[0], bs[1]), Third(bs[1], bs[2]), Fourth(bs[2])] + Sextets(bs[3..])
  }

  /** The octets of some sextets. Leftover bits of the last one are ignored; one
      sextet alone is refused. */
  function Octets(vs: seq<sextet>): Option<seq<byte>> {
    if vs == [] then Some([])
    else if |vs| == 1 then None
    else if |vs| == 2 then Some([Octet0(vs[0], vs[1])])
    else if |vs| == 3 then Some([Octet0(vs[0], vs[1]), Octet1(vs[1], vs[2])])
    else match Octets(vs[4..])
      case None => None
      case Some(rest) => Some([Octet0(vs[0], vs[1]), Octet1(vs[1], vs[2]), Octet2(vs[2], vs[3])] + rest)
  }

  lemma {:induction false} SextetsRoundTrip(bs: seq<byte>)
    ensures Octets(Sextets(bs)) == Some(bs)
  {
    if |bs| == 1 {
      OctetsComeBack(bs[0], 0, 0);
      assert bs == [bs[0]];
    } else if |bs| == 2 {
      OctetsComeBack(bs[0], bs[1], 0);
      assert bs == [bs[0], bs[1]];
    } else if |bs| >= 3 {
      OctetsComeBack(bs[0], bs[1], bs[2]);
      SextetsRoundTrip(bs[3..]);
      assert Sextets(bs)[4..] == Sextets(bs[3..]);
      assert bs == [bs[0], bs[1], bs[2]] + bs[3..];
    }
  }

  function Digits(alphabet: Alphabet, vs: seq<sextet>): (s: string)
    ensures |s| == |vs|
  {
    seq(|vs|, i requires 0 <= i < |vs| => Digit(alphabet, vs[i]))
  }

  function Encode64(alphabet: Alphabet, bs: seq<byte>): string {
    Digits(alphabet, Sextets(bs))
  }

  /** The decoder skips line ends wherever they are. */
  function WithoutLineEnds(s: string): string {
    if s == "" then ""
    else (if s[0] == '\r' || s[0] == '\n' then "" else [s[0]]) + WithoutLineEnds(s[1..])
  }

  predicate InAlphabet(alphabet: Alphabet, s: string) {
    forall i :: 0 <= i < |s| ==> DigitValue(alphabet, s[i]) >= 0
  }

  function ValuesOf(alphabet: Alphabet, s: string): seq<sextet>
    requires InAlphabet(alphabet, s)
  {
    seq(|s|, i requires 0 <= i < |s| => DigitValue(alphabet, s[i]))
  }

  function Decode64(alphabet: Alphabet, s: string): Option<seq<byte>> {
    var t := WithoutLineEnds(s);
    if !InAlphabet(alphabet, t) then None else Octets(ValuesOf(alphabet, t))
  }

  lemma {:induction false} DigitsComeBack(alphabet: Alphabet, vs: seq<sextet>)
    ensures InAlphabet(alphabet, Digits(alphabet, vs)) && ValuesOf(alphabet, Digits(alphabet, vs)) == vs
    ensures forall c :: c in Digits(alphabet, vs) ==> c != '\r' && c != '\n' && c != '$' && c != '|' && c != '='
  {
    forall i | 0 <= i < |vs|
      ensures DigitValue(alphabet, Digits(alphabet, vs)[i]) == vs[i]
      ensures var c := Digits(alphabet, vs)[i]; c != '\r' && c != '\n' && c != '$' && c != '|' && c != '='
    {
      DigitIsExact(alphabet, vs[i]);
    }
  }

  lemma {:induction false} NothingToSkip(s: string)
    requires forall c :: c in s ==> c != '\r' && c != '\n'
    ensures WithoutLineEnds(s) == s
  {
    if s != "" {
      assert s[0] in s;
      assert forall c :: c in s[1..] ==> c in s;
      NothingToSkip(s[1..]);
      assert s == [s[0]] + s[1..];
    }
  }

  /** Whatever octets are encoded decode to themselves, and the text holds
      neither of the separators stored next to it. */
  lemma {:induction false} Base64RoundTrip(alphabet: Alphabet, bs: seq<byte>)
    ensures Decode64(alphabet, Encode64(alphabet, bs)) == Some(bs)
    ensures '$' !in Encode64(alphabet, bs) && '|' !in Encode64(alphabet, bs)
  {
    DigitsComeBack(alphabet, Sextets(bs));
    NothingToSkip(Encode64(alphabet, bs));
    SextetsRoundTrip(bs);
  }

  // ---- decimal numbers

  const MIN_INT := -0x8000_0000_0000_0000
  const MAX_INT := 0x7FFF_FFFF_FFFF_FFFF

  function DigitChar(d: int): char
    requires 0 <= d < 10
  {
    ('0' as int + d) as char
  }

  predicate IsDigit(c: char) {
    '0' <= c <= '9'
  }

  function DigitNumber(c: char): nat
    requires IsDigit(c)
  {
    c as int - '0' as int
  }

  predicate AllDigits(s: string) {
    forall i :: 0 <= i < |s| ==> IsDigit(s[i])
  }

  function NatText(n: nat): (s: string)
    ensures s != ""
  {
    (if n < 10 then "" else NatText(n / 10)) + [DigitChar(n % 10)]
  }

  function Itoa(n: int): string {
    if n < 0 then "-" + NatText(-n) else NatText(n)
  }

  function NatValue(s: string): nat
    requires AllDigits(s)
  {
    if s == "" then 0 else 10 * NatValue(s[..|s| - 1]) + DigitNumber(s[|s| - 1])
  }

  /** At least one digit, within 64 bits. */
  function ReadDigits(negative: bool, digits: string): Option<int> {
    if digits == "" || !AllDigits(digits) then None
    else
      var v: int := NatValue(digits);
      var n := if negative then 0 - v else v;
      if MIN_INT <= n <= MAX_INT then Some(n) else None
  }

  /** Digits behind an optional sign. */
  function Atoi(s: string): Option<int> {
    if s == "" then None
    else if s[0] == '-' then ReadDigits(true, s[1..])
    else if s[0] == '+' then ReadDigits(false, s[1..])
    else ReadDigits(false, s)
  }

  lemma {:induction false} NatTextRoundTrip(n: nat)
    ensures AllDigits(NatText(n)) && NatValue(NatText(n)) == n
  {
    var front := if n < 10 then "" else NatText(n / 10);
    if n >= 10 {
      NatTextRoundTrip(n / 10);
    }
    ReadOneMore(front, n % 10);
  }

  lemma {:induction false} ReadOneMore(front: string, d: int)
    requires AllDigits(front) && 0 <= d < 10
    ensures AllDigits(front + [DigitChar(d)])
    ensures NatValue(front + [DigitChar(d)]) == 10 * NatValue(front) + d
  {
    assert (front + [DigitChar(d)])[..|front|] == front;
  }

  lemma {:induction false} SignedText(n: int)
    ensures n < 0 ==> Itoa(n)[0] == '-' && Itoa(n)[1..] == NatText(-n)
    ensures n >= 0 ==> Itoa(n)[0] != '-' && Itoa(n)[0] != '+'
  {
    if n >= 0 {
      NatTextRoundTrip(n);
    }
  }

  /** Every 64-bit number is read back from its text. */
  lemma {:induction false} DecimalRoundTrip(n: int)
    requires MIN_INT <= n <= MAX_INT
    ensures Atoi(Itoa(n)) == Some(n)
  {
    SignedText(n);
    NatTextRoundTrip(if n < 0 then -n else n);
  }

  /** The text of a number that is not negative holds digits only. */
  lemma {:induction false} DecimalDigits(n: nat)
    ensures AllDigits(Itoa(n)) && forall c :: c in Itoa(n) ==> IsDigit(c)
  {
    NatTextRoundTrip(n);
  }

  // ---- fields

  /** The text up to the first separator, and the rest. */
  function Split(s: string, sep: char): (parts: seq<string>)
    ensures parts != []
  {
    if s == "" then [""]
    else
      var rest := Split(s[1..], sep);
      if s[0] == sep then [""] + rest else [[s[0]] + rest[0]] + rest[1..]
  }

  function Join(parts: seq<string>, sep: char): string
    requires parts != []
  {
    if |parts| == 1 then parts[0] else parts[0] + [sep] + Join(parts[1..], sep)
  }

  lemma {:induction false} SplitField(field: string, rest: string, sep: char)
    requires sep !in field
    ensures Split(field + [sep] + rest, sep) == [field] + Split(rest, sep)
    ensures Split(field, sep) == [field]
  {
    var s := field + [sep] + rest;
    if field == "" {
      assert s[1..] == rest;
    } else {
      SplitField(field[1..], rest, sep);
      assert s[1..] == field[1..] + [sep] + rest;
      assert field == [field[0]] + field[1..];
    }
  }

  /** Fields without the separator come back as they were joined. */
  lemma {:induction false} SplitJoin(parts: seq<string>, sep: char)
    requires parts != [] && forall i :: 0 <= i < |parts| ==> sep !in parts[i]
    ensures Split(Join(parts, sep), sep) == parts
  {
    if |parts| == 1 {
      SplitField(parts[0], "", sep);
    } else {
      SplitJoin(parts[1..], sep);
      SplitField(parts[0], Join(parts[1..], sep), sep);
    }
  }

  // ---- what the texts look like

  lemma {:induction false} EncodeGroup(alphabet: Alphabet, b0: byte, b1: byte, b2: byte, rest: seq<byte>)
    ensures Encode64(alphabet, [b0, b1, b2] + rest) ==
            [Digit(alphabet, First(b0)), Digit(alphabet, Second(b0, b1)), Digit(alphabet, Third(b1, b2)), Digit(alphabet, Fourth(b2))]
            + Encode64(alphabet, rest)
  {
    var bs := [b0, b1, b2] + rest;
    assert bs[3..] == rest;
  }

  lemma {:induction false} LastOctets(alphabet: Alphabet, b0: byte, b1: byte)
    ensures Encode64(alphabet, []) == ""
    ensures Encode64(alphabet, [b0]) == [Digit(alphabet, First(b0)), Digit(alphabet, Second(b0, 0))]
    ensures Encode64(alphabet, [b0, b1]) ==
            [Digit(alphabet, First(b0)), Digit(alphabet, Second(b0, b1)), Digit(alphabet, Third(b1, 0))]
  {
  }

  /** The test vectors of section 10 of RFC 4648, their padding left out: f, fo, foo and
      foobar. */
  lemma {:induction false} Base64Vectors()
    ensures Encode64(StdAlphabet, [102]) == "Zg"
    ensures Encode64(StdAlphabet, [102, 111]) == "Zm8"
    ensures Encode64(StdAlphabet, [102, 111, 111]) == "Zm9v"
    ensures Encode64(StdAlphabet, [102, 111, 111, 98, 97, 114]) == "Zm9vYmFy"
  {
    LastOctets(StdAlphabet, 102, 111);
    assert [102, 111, 111] + [] == [102, 111, 111];
    EncodeGroup(StdAlphabet, 102, 111, 111, []);
    assert [98, 97, 114] + [] == [98, 97, 114];
    EncodeGroup(StdAlphabet, 98, 97, 114, []);
    assert [102, 111, 111] + [98, 97, 114] == [102, 111, 111, 98, 97, 114];
    EncodeGroup(StdAlphabet, 102, 111, 111, [98, 97, 114]);
  }

  /** The two characters in which the alphabets differ. */
  lemma {:induction false} AlphabetsDiffer()
    ensures Encode64(StdAlphabet, [0xFB, 0xFF]) == "+/8" && Encode64(UrlAlphabet, [0xFB, 0xFF]) == "-_8"
  {
    LastOctets(StdAlphabet, 0xFB, 0xFF);
    LastOctets(UrlAlphabet, 0xFB, 0xFF);
  }

  lemma {:induction false} JoinFour(a: string, b: string, c: string, d: string, sep: char)
    ensures Join([a, b, c, d], sep) == a + [sep] + b + [sep] + c + [sep] + d
  {
    assert [c, d][1..] == [d] && [b, c, d][1..] == [c, d] && [a, b, c, d][1..] == [b, c, d];
    assert Join([d], sep) == d;
    assert Join([c, d], sep) == c + [sep] + d;
    assert Join([b, c, d], sep) == b + [sep] + (c + [sep] + d);
  }

  /** A number is written with its digits from left to right, behind a minus if it is
      negative: one more digit behind n makes ten times n and that digit. */
  lemma {:induction false} DecimalIsExact(n: nat, d: nat)
    requires d < 10
    ensures Itoa(d) == ["0123456789"[d]]
    ensures n > 0 ==> Itoa(10 * n + d) == Itoa(n) + ["0123456789"[d]]
    ensures n > 0 ==> Itoa(0 - n as int) == "-" + Itoa(n)
  {
    TenTimes(n, d);
    DigitCharIs(d);
    assert NatText(10 * n + d) == (if 10 * n + d < 10 then "" else NatText(n)) + [DigitChar(d)];
  }

  lemma TenTimes(n: nat, d: nat)
    requires d < 10
    ensures (10 * n + d) / 10 == n && (10 * n + d) % 10 == d
  {
  }

  lemma DigitCharIs(d: nat)
    requires d < 10
    ensures DigitChar(d) == "0123456789"[d]
  {
  }

  // ---- which texts are read

  /** Line ends are skipped wherever they are. */
  lemma {:induction false} LineEndsAreSkipped(alphabet: Alphabet, a: string, c: char, b: string)
    requires c == '\r' || c == '\n'
    ensures Decode64(alphabet, a + [c] + b) == Decode64(alphabet, a + b)
  {
    SkippingJoins(a + [c], b);
    SkippingJoins(a, [c]);
    SkippingJoins(a, b);
    assert [c][1..] == "" && [c][0] == c;
    assert WithoutLineEnds([c]) == "";
    assert WithoutLineEnds(a + [c] + b) == WithoutLineEnds(a + b);
  }

  lemma {:induction false} SkippingJoins(a: string, b: string)
    ensures WithoutLineEnds(a + b) == WithoutLineEnds(a) + WithoutLineEnds(b)
  {
    if a == "" {
      assert a + b == b;
    } else {
      SkippingJoins(a[1..], b);
      assert (a + b)[1..] == a[1..] + b && (a + b)[0] == a[0];
      var first := if a[0] == '\r' || a[0] == '\n' then "" else [a[0]];
      assert first + (WithoutLineEnds(a[1..]) + WithoutLineEnds(b)) == (first + WithoutLineEnds(a[1..])) + WithoutLineEnds(b);
    }
  }

  /** Base64 text is read if and only if it holds nothing but digits of the alphabet and no
      single digit is left over after groups of four; four digits make three octets, and
      the first of a last three or two make two or one. Whole groups are what the octets
      are encoded as. */
  lemma {:induction false} DecodeIsExact(alphabet: Alphabet, s: string)
    requires forall c :: c in s ==> c != '\r' && c != '\n'
    ensures var read := Decode64(alphabet, s);
            && (read.Some? <==> |s| % 4 != 1 && forall c :: c in s ==> exists v :: 0 <= v < 64 && c == Digit(alphabet, v))
            && (read.Some? ==> |read.value| == |s| * 3 / 4)
            && (read.Some? && |s| % 4 == 0 ==> Encode64(alphabet, read.value) == s)
  {
    NothingToSkip(s);
    DigitsAreValues(alphabet, s);
    if InAlphabet(alphabet, s) {
      OctetsAreExact(ValuesOf(alphabet, s));
      assert Decode64(alphabet, s) == Octets(ValuesOf(alphabet, s));
      if |s| % 4 == 0 {
        assert Digits(alphabet, ValuesOf(alphabet, s)) == s;
      }
    }
  }

  lemma {:induction false} DigitsAreValues(alphabet: Alphabet, s: string)
    ensures InAlphabet(alphabet, s) <==> forall c :: c in s ==> exists v :: 0 <= v < 64 && c == Digit(alphabet, v)
    ensures forall i :: 0 <= i < |s| && DigitValue(alphabet, s[i]) >= 0 ==> Digit(alphabet, DigitValue(alphabet, s[i])) == s[i]
  {
    if InAlphabet(alphabet, s) {
      forall c | c in s
        ensures exists v :: 0 <= v < 64 && c == Digit(alphabet, v)
      {
        var i :| 0 <= i < |s| && s[i] == c;
        assert c == Digit(alphabet, DigitValue(alphabet, c));
      }
    }
    if forall c :: c in s ==> exists v :: 0 <= v < 64 && c == Digit(alphabet, v) {
      forall i | 0 <= i < |s|
        ensures DigitValue(alphabet, s[i]) >= 0
      {
        assert s[i] in s;
        var v :| 0 <= v < 64 && s[i] == Digit(alphabet, v);
        DigitIsExact(alphabet, v);
      }
    }
  }

  lemma {:induction false} OctetsAreExact(vs: seq<sextet>)
    ensures Octets(vs).Some? <==> |vs| % 4 != 1
    ensures Octets(vs).Some? ==> |Octets(vs).value| == |vs| * 3 / 4
    ensures |vs| % 4 == 0 ==> Sextets(Octets(vs).value) == vs
  {
    if |vs| >= 4 {
      FourMore(|vs| - 4);
      OctetsAreExact(vs[4..]);
      if |vs| % 4 == 0 {
        OneMoreGroup(vs, Octets(vs[4..]).value);
      }
    }
  }

  lemma FourMore(n: nat)
    ensures (n + 4) % 4 == n % 4 && (n + 4) * 3 / 4 == n * 3 / 4 + 3
  {
  }

  lemma {:induction false} OneMoreGroup(vs: seq<sextet>, rest: seq<byte>)
    requires |vs| >= 4 && Octets(vs[4..]) == Some(rest) && Sextets(rest) == vs[4..]
    ensures Octets(vs).Some? && Sextets(Octets(vs).value) == vs
  {
    var bs := Octets(vs).value;
    SextetsComeBack(vs[0], vs[1], vs[2], vs[3]);
    assert |bs| >= 3 && bs[3..] == rest;
    assert vs == [vs[0], vs[1], vs[2], vs[3]] + vs[4..];
  }

  lemma SextetsComeBack(v0: sextet, v1: sextet, v2: sextet, v3: sextet)
    ensures First(Octet0(v0, v1)) == v0
    ensures Second(Octet0(v0, v1), Octet1(v1, v2)) == v1
    ensures Third(Octet1(v1, v2), Octet2(v2, v3)) == v2
    ensures Fourth(Octet2(v2, v3)) == v3
  {
  }

  /** Digits are read with or without a sign, if the number fits in 64 bits. */
  lemma {:induction false} NumbersAreRead(digits: string)
    requires digits != "" && AllDigits(digits)
    ensures Atoi(digits) == Atoi("+" + digits) == (if NatValue(digits) < 0x8000_0000_0000_0000 then Some(NatValue(digits) as int) else None)
    ensures Atoi("-" + digits) == (if NatValue(digits) <= 0x8000_0000_0000_0000 then Some(0 - NatValue(digits) as int) else None)
  {
    assert ("+" + digits)[1..] == digits && ("-" + digits)[1..] == digits;
    assert IsDigit(digits[0]);
    assert Atoi(digits) == ReadDigits(false, digits);
  }

  /** And nothing else is. */
  lemma {:induction false} OnlyNumbersAreRead(s: string)
    requires Atoi(s).Some?
    ensures exists digits :: digits != "" && AllDigits(digits) && (s == digits || s == "+" + digits || s == "-" + digits)
  {
    if s[0] == '-' || s[0] == '+' {
      assert s == [s[0]] + s[1..];
    }
  }

  /** The value of digits: a digit counts ten times less than the one before it. */
  lemma {:induction false} ValueIsExact(front: string, d: nat)
    requires AllDigits(front) && d < 10
    ensures var s := front + ["0123456789"[d]]; NatValue("") == 0 && AllDigits(s) && NatValue(s) == 10 * NatValue(front) + d
  {
    ReadOneMore(front, d);
  }

  /** The fields of a text: none holds the separator, and joined they are the text. */
  lemma {:induction false} SplitIsExact(s: string, sep: char)
    ensures Join(Split(s, sep), sep) == s
    ensures forall i :: 0 <= i < |Split(s, sep)| ==> sep !in Split(s, sep)[i]
  {
    if s != "" {
      var rest := Split(s[1..], sep);
      SplitIsExact(s[1..], sep);
      assert s == [s[0]] + s[1..];
      if s[0] == sep {
        assert ([""] + rest)[1..] == rest;
      } else {
        assert sep !in rest[0];
        assert |rest| > 1 ==> ([[s[0]] + rest[0]] + rest[1..])[1..] == rest[1..];
      }
    }
  }
}
