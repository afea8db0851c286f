/** PBKDF2 over any pseudorandom function, against the definition in section
    5.2 of RFC 8018 (internal/security/password.go). */
module Pbkdf2 {
  import opened Bytes

  /** A pseudorandom function keyed by a password: its output length in octets
      and what it gives for a message. */
  datatype Prf = Prf(size: nat, apply: seq<byte> -> seq<byte>)

  ghost predicate IsPrf(prf: Prf) {
    prf.size >= 1 && forall m :: |prf.apply(m)| == prf.size
  }

  // ---- the definition

  /** INT(i): the four-octet encoding of i, most significant octet first. */
  function Int4(i: nat): (r: seq<byte>)
    ensures |r| == 4
  {
    [i / 0x100_0000 % 256, i / 0x1_0000 % 256, i / 0x100 % 256, i % 256]
  }

  /** U_k: the PRF applied k times, first to the salt and the block number. */
  ghost function U(prf: Prf, salt: seq<byte>, block: nat, k: nat): (u: seq<byte>)
    requires IsPrf(prf) && k >= 1
    ensures |u| == prf.size
  {
    if k == 1 then prf.apply(salt + Int4(block)) else prf.apply(U(prf, salt, block, k - 1))
  }

  /** F(P, S, c, i): the exclusive-or of U_1 to U_c. */
  ghost function F(prf: Prf, salt: seq<byte>, c: nat, block: nat): (t: seq<byte>)
    requires IsPrf(prf) && c >= 1
    ensures |t| == prf.size
  {
    if c == 1 then U(prf, salt, block, 1) else Xor(F(prf, salt, c - 1, block), U(prf, salt, block, c))
  }

  /** T_1 to T_n, one after the other. */
  ghost function Blocks(prf: Prf, salt: seq<byte>, c: nat, n: nat): (dk: seq<byte>)
    requires IsPrf(prf) && c >= 1
  {
    if n == 0 then [] else Blocks(prf, salt, c, n - 1) + F(prf, salt, c, n)
  }

  /** How many blocks a key needs. */
  function BlocksFor(keyLen: nat, size: nat): nat
    requires size >= 1
  {
    (keyLen + size - 1) / size
  }

  /** The derived key: the first keyLen octets of the blocks it needs. */
  ghost function DerivedKey(prf: Prf, salt: seq<byte>, c: nat, keyLen: nat): (dk: seq<byte>)
    requires IsPrf(prf) && c >= 1
    ensures |dk| == keyLen
  {
    BlocksLength(prf, salt, c, BlocksFor(keyLen, prf.size));
    EnoughBlocks(keyLen, prf.size);
    Blocks(prf, salt, c, BlocksFor(keyLen, prf.size))[..keyLen]
  }

  lemma {:induction false} BlocksLength(prf: Prf, salt: seq<byte>, c: nat, n: nat)
    requires IsPrf(prf) && c >= 1
    ensures |Blocks(prf, salt, c, n)| == n * prf.size
  {
    if n > 0 {
      BlocksLength(prf, salt, c, n - 1);
      assert n * prf.size == (n - 1) * prf.size + prf.size;
    }
  }

  lemma {:induction false} EnoughBlocks(keyLen: nat, size: nat)
    requires size >= 1
    ensures keyLen <= BlocksFor(keyLen, size) * size
  {
    var n := keyLen + size - 1;
    assert n == (n / size) * size + n % size;
  }

  // ---- properties of the definition

  lemma {:induction false} MoreBlocksExtend(prf: Prf, salt: seq<byte>, c: nat, m: nat, n: nat)
    requires IsPrf(prf) && c >= 1 && m <= n
    ensures Blocks(prf, salt, c, m) <= Blocks(prf, salt, c, n)
  {
    if m < n {
      MoreBlocksExtend(prf, salt, c, m, n - 1);
    }
  }

  lemma TimesMonotone(m: nat, n: nat, size: nat)
    requires m <= n
    ensures m * size <= n * size
  {
  }

  lemma {:induction false} MoreKeyMoreBlocks(k1: nat, k2: nat, size: nat)
    requires size >= 1 && k1 <= k2
    ensures BlocksFor(k1, size) <= BlocksFor(k2, size)
  {
    var a, b := k1 + size - 1, k2 + size - 1;
    var q1, q2 := a / size, b / size;
    assert a == q1 * size + a % size && b == q2 * size + b % size;
    if q1 > q2 {
      TimesMonotone(q2 + 1, q1, size);
    }
  }

  /** A shorter key is a prefix of a longer one. */
  lemma {:induction false} ShorterIsPrefix(prf: Prf, salt: seq<byte>, c: nat, k1: nat, k2: nat)
    requires IsPrf(prf) && c >= 1 && k1 <= k2
    ensures DerivedKey(prf, salt, c, k1) == DerivedKey(prf, salt, c, k2)[..k1]
  {
    MoreKeyMoreBlocks(k1, k2, prf.size);
    MoreBlocksExtend(prf, salt, c, BlocksFor(k1, prf.size), BlocksFor(k2, prf.size));
    BlocksLength(prf, salt, c, BlocksFor(k1, prf.size));
    EnoughBlocks(k1, prf.size);
  }

  /** What a four-octet encoding stands for. */
  function Value4(r: seq<byte>): nat
    requires |r| == 4
  {
    var a: int, b: int, c: int, d: int := r[0], r[1], r[2], r[3];
    a * 0x100_0000 + b * 0x1_0000 + c * 0x100 + d
  }

  /** Block numbers below 2^32 are encoded without loss, so no two blocks of one
      key start from the same message. */
  lemma {:induction false} Int4IsExact(i: nat)
    requires i < 0x1_0000_0000
    ensures Value4(Int4(i)) == i
  {
    var q1, q2, q3 := i / 0x100, i / 0x1_0000, i / 0x100_0000;
    assert i == q1 * 0x100 + i % 0x100;
    assert q1 == q2 * 0x100 + q1 % 0x100;
    assert q2 == q3 * 0x100 + q2 % 0x100 && q3 < 0x100;
  }

  /** The first block in full: for one iteration what the PRF gives for the salt and the
      number one, for two the exclusive-or of that and what it gives for that. */
  lemma {:induction false} FirstBlockIs(prf: Prf, salt: seq<byte>)
    requires IsPrf(prf)
    ensures DerivedKey(prf, salt, 1, prf.size) == prf.apply(salt + [0, 0, 0, 1])
    ensures DerivedKey(prf, salt, 2, prf.size) ==
            Xor(prf.apply(salt + [0, 0, 0, 1]), prf.apply(prf.apply(salt + [0, 0, 0, 1])))
  {
    assert Int4(1) == [0, 0, 0, 1];
    OneBlockIsEnough(prf.size);
    assert Blocks(prf, salt, 1, 1) == Blocks(prf, salt, 1, 0) + F(prf, salt, 1, 1) == F(prf, salt, 1, 1);
    assert Blocks(prf, salt, 2, 1) == Blocks(prf, salt, 2, 0) + F(prf, salt, 2, 1) == F(prf, salt, 2, 1);
    assert U(prf, salt, 1, 2) == prf.apply(U(prf, salt, 1, 1));
    assert F(prf, salt, 2, 1) == Xor(F(prf, salt, 1, 1), U(prf, salt, 1, 2));
  }

  lemma {:induction false} OneBlockIsEnough(size: nat)
    requires size >= 1
    ensures BlocksFor(size, size) == 1
  {
    QuotientIs(size + size - 1, size, 1, size - 1);
  }

  // ---- the code

  /** One block: the first PRF value, then one more and an exclusive-or for each
      further iteration, in place. */
  method OneBlock(prf: Prf, salt: seq<byte>, iterations: nat, block: nat) returns (t: array<byte>)
    requires IsPrf(prf) && iterations >= 1
    ensures t.Length == prf.size && t[..] == F(prf, salt, iterations, block)
    ensures fresh(t)
  {
    var buf := new byte[4];
    // the shifts of a non-negative block number, cut to one octet each
    buf[0], buf[1], buf[2], buf[3] := block / 0x100_0000 % 256, block / 0x1_0000 % 256, block / 0x100 % 256, block % 256;
    assert buf[..] == Int4(block);
    var u := prf.apply(salt + buf[..]);
    t := new byte[|u|](j requires 0 <= j < |u| => u[j]);
    assert t[..] == u;
    for i := 1 to iterations
      invariant t.Length == prf.size && fresh(t)
      invariant u == U(prf, salt, block, i)
      invariant t[..] == F(prf, salt, i, block)
    {
      ghost var before := t[..];
      u := prf.apply(u);
      for j := 0 to |u|
        invariant forall k :: 0 <= k < j ==> t[k] == XorByte(before[k], u[k])
        invariant forall k :: j <= k < |u| ==> t[k] == before[k]
      {
        t[j] := XorByte(t[j], u[j]);
      }
      assert t[..] == Xor(before, u);
    }
  }

  method Pbkdf2Sha256(prf: Prf, salt: seq<byte>, iterations: nat, keyLen: nat) returns (key: seq<byte>)
    requires IsPrf(prf) && iterations >= 1
    ensures key == DerivedKey(prf, salt, iterations, keyLen)
  {
    var numBlocks := (keyLen + prf.size - 1) / prf.size;
    var dk := [];
    for block := 0 to numBlocks
      invariant dk == Blocks(prf, salt, iterations, block)
    {
      var t := OneBlock(prf, salt, iterations, block + 1);
      dk := dk + t[..];
    }
    BlocksLength(prf, salt, iterations, numBlocks);
    EnoughBlocks(keyLen, prf.size);
    key := dk[..keyLen];
  }
}
