/** The self-describing password hash: what is printed verifies, and exactly
    the same derived key verifies (internal/security/password.go). */
module Passwords {
  import opened Wrappers
  import opened Bytes
  import opened Pbkdf2
  import opened Codecs

  const ALGORITHM := "pbkdf2-sha256"
  const ITERATIONS := 210_000
  const SALT_LENGTH := 16
  const KEY_LENGTH := 32

  datatype PasswordError = EmptyPassword | UnrecognizedFormat | InvalidIterations | InvalidSalt | InvalidHash

  /** HMAC-SHA256 as a function of the password that keys it. */
  ghost predicate IsHmac(hmac: string -> Prf) {
    forall p :: IsPrf(hmac(p))
  }

  function Printed(iterations: int, salt: seq<byte>, key: seq<byte>): string {
    Join([ALGORITHM, Itoa(iterations), Encode64(StdAlphabet, salt), Encode64(StdAlphabet, key)], '$')
  }

  /** The fields of a stored hash. */
  datatype Parsed = Parsed(iterations: nat, salt: seq<byte>, key: seq<byte>)

  function Parse(encoded: string): Result<Parsed, PasswordError> {
    var parts := Split(encoded, '$');
    if |parts| != 4 || parts[0] != ALGORITHM then Err(UnrecognizedFormat)
    else
      var iterations := Atoi(parts[1]);
      if iterations.None? || iterations.value <= 0 then Err(InvalidIterations)
      else
        var salt := Decode64(StdAlphabet, parts[2]);
        if salt.None? then Err(InvalidSalt)
        else
          var key := Decode64(StdAlphabet, parts[3]);
          if key.None? then Err(InvalidHash) else Ok(Parsed(iterations.value, salt.value, key.value))
  }

  /** The salt stands for the random octets the system draws. */
  method HashPassword(hmac: string -> Prf, password: string, salt: seq<byte>) returns (r: Result<string, PasswordError>)
    requires IsHmac(hmac) && |salt| == SALT_LENGTH
    ensures password == "" ==> r == Err(EmptyPassword)
    ensures password != "" ==> r == Ok(Printed(ITERATIONS, salt, DerivedKey(hmac(password), salt, ITERATIONS, KEY_LENGTH)))
  {
    if password == "" {
      return Err(EmptyPassword);
    }
    var derived := Pbkdf2Sha256(hmac(password), salt, ITERATIONS, KEY_LENGTH);
    r := Ok(Printed(ITERATIONS, salt, derived));
  }

  lemma ParsedIterates(encoded: string)
    ensures Parse(encoded).Ok? ==> Parse(encoded).value.iterations >= 1
  {
  }

  /** What a stored hash says of a password: the derived key is the stored one. */
  ghost function Verdict(hmac: string -> Prf, password: string, encoded: string): Result<bool, PasswordError>
    requires IsHmac(hmac)
  {
    ParsedIterates(encoded);
    match Parse(encoded)
    case Err(e) => Err(e)
    case Ok(h) => Ok(DerivedKey(hmac(password), h.salt, h.iterations, |h.key|) == h.key)
  }

  method VerifyPassword(hmac: string -> Prf, password: string, encoded: string) returns (r: Result<bool, PasswordError>)
    requires IsHmac(hmac)
    ensures r == Verdict(hmac, password, encoded)
  {
    var parts := Split(encoded, '$');
    if |parts| != 4 || parts[0] != ALGORITHM {
      return Err(UnrecognizedFormat);
    }
    var iterations := Atoi(parts[1]);
    if iterations.None? || iterations.value <= 0 {
      return Err(InvalidIterations);
    }
    var salt := Decode64(StdAlphabet, parts[2]);
    if salt.None? {
      return Err(InvalidSalt);
    }
    var want := Decode64(StdAlphabet, parts[3]);
    if want.None? {
      return Err(InvalidHash);
    }
    var got := Pbkdf2Sha256(hmac(password), salt.value, iterations.value, |want.value|);
    r := Ok(got == want.value);
  }

  lemma NoDollar()
    ensures '$' !in ALGORITHM
  {
  }

  /** The four fields print and parse back exactly. */
  lemma {:induction false} PrintedParses(iterations: int, salt: seq<byte>, key: seq<byte>)
    requires 1 <= iterations <= MAX_INT
    ensures Parse(Printed(iterations, salt, key)) == Ok(Parsed(iterations, salt, key))
  {
    var parts := [ALGORITHM, Itoa(iterations), Encode64(StdAlphabet, salt), Encode64(StdAlphabet, key)];
    DecimalRoundTrip(iterations);
    Base64RoundTrip(StdAlphabet, salt);
    Base64RoundTrip(StdAlphabet, key);
    NoDollar();
    DecimalDigits(iterations);
    SplitJoin(parts, '$');
  }

  /** A password verifies against its own hash, whatever the salt, and any other
      exactly when it derives the same key. */
  lemma {:induction false} HashedPasswordVerifies(hmac: string -> Prf, password: string, attempt: string, salt: seq<byte>)
    requires IsHmac(hmac)
    ensures var encoded := Printed(ITERATIONS, salt, DerivedKey(hmac(password), salt, ITERATIONS, KEY_LENGTH));
            && Verdict(hmac, password, encoded) == Ok(true)
            && Verdict(hmac, attempt, encoded) ==
               Ok(DerivedKey(hmac(attempt), salt, ITERATIONS, KEY_LENGTH) == DerivedKey(hmac(password), salt, ITERATIONS, KEY_LENGTH))
  {
    PrintedParses(ITERATIONS, salt, DerivedKey(hmac(password), salt, ITERATIONS, KEY_LENGTH));
  }

  /** What a stored hash looks like. */
  lemma {:induction false} PrintedIsExact(salt: seq<byte>, key: seq<byte>)
    ensures Printed(ITERATIONS, salt, key) ==
            "pbkdf2-sha256" + "$" + "210000" + "$" + Encode64(StdAlphabet, salt) + "$" + Encode64(StdAlphabet, key)
  {
    DecimalIsExact(2, 1);
    DecimalIsExact(21, 0);
    DecimalIsExact(210, 0);
    DecimalIsExact(2100, 0);
    DecimalIsExact(21000, 0);
    DecimalIsExact(0, 2);
    assert Itoa(ITERATIONS) == "210000";
    JoinFour(ALGORITHM, "210000", Encode64(StdAlphabet, salt), Encode64(StdAlphabet, key), '$');
  }

  /** Two stored hashes are the same text only if they hold the same fields. */
  lemma {:induction false} PrintedIsInjective(i1: int, s1: seq<byte>, k1: seq<byte>, i2: int, s2: seq<byte>, k2: seq<byte>)
    requires 1 <= i1 <= MAX_INT && 1 <= i2 <= MAX_INT && Printed(i1, s1, k1) == Printed(i2, s2, k2)
    ensures i1 == i2 && s1 == s2 && k1 == k2
  {
    PrintedParses(i1, s1, k1);
    PrintedParses(i2, s2, k2);
  }

  /** A text in the format of a stored hash, its fields still to be read. */
  ghost predicate HasFields(encoded: string, number: string, salt: string, key: string) {
    && '$' !in number && '$' !in salt && '$' !in key
    && encoded == "pbkdf2-sha256" + "$" + number + "$" + salt + "$" + key
  }

  /** Only such a text is recognised. */
  lemma {:induction false} UnrecognizedIff(encoded: string)
    ensures Parse(encoded) == Err(UnrecognizedFormat) <==> !exists number, salt, key :: HasFields(encoded, number, salt, key)
  {
    var parts := Split(encoded, '$');
    SplitIsExact(encoded, '$');
    if |parts| == 4 && parts[0] == ALGORITHM {
      JoinFour(parts[0], parts[1], parts[2], parts[3], '$');
      assert parts == [parts[0], parts[1], parts[2], parts[3]];
      assert HasFields(encoded, parts[1], parts[2], parts[3]);
    }
    if number, salt, key :| HasFields(encoded, number, salt, key) {
      FieldsAreSplit(encoded, number, salt, key);
    }
  }

  lemma {:induction false} FieldsAreSplit(encoded: string, number: string, salt: string, key: string)
    requires HasFields(encoded, number, salt, key)
    ensures Split(encoded, '$') == [ALGORITHM, number, salt, key]
  {
    NoDollar();
    JoinFour(ALGORITHM, number, salt, key, '$');
    SplitJoin([ALGORITHM, number, salt, key], '$');
  }

  /** And it is taken if and only if the number is positive and both texts are base64, in
      that order of complaint. */
  lemma {:induction false} ParseIsExact(encoded: string, number: string, salt: string, key: string)
    requires HasFields(encoded, number, salt, key)
    ensures var n, s, k := Atoi(number), Decode64(StdAlphabet, salt), Decode64(StdAlphabet, key);
            && (Parse(encoded) == Err(InvalidIterations) <==> n.None? || n.value < 1)
            && (Parse(encoded) == Err(InvalidSalt) <==> n.Some? && n.value >= 1 && s.None?)
            && (Parse(encoded) == Err(InvalidHash) <==> n.Some? && n.value >= 1 && s.Some? && k.None?)
            && (n.Some? && n.value >= 1 && s.Some? && k.Some? ==> Parse(encoded) == Ok(Parsed(n.value, s.value, k.value)))
  {
    FieldsAreSplit(encoded, number, salt, key);
  }
}
