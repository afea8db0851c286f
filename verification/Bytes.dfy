/** Octets as numbers below 256, and the exclusive-or of two of them. */
module Bytes {
  type byte = b: int | 0 <= b < 256

  function Pow2(n: nat): (p: nat)
    ensures p >= 1
  {
    if n == 0 then 1 else 2 * Pow2(n - 1)
  }

  /** Bit by bit: a result bit is set where exactly one of the two is. */
  function XorBits(a: nat, b: nat, width: nat): (r: nat)
    requires a < Pow2(width) && b < Pow2(width)
    ensures r < Pow2(width)
  {
    if width == 0 then 0
    else 2 * XorBits(a / 2, b / 2, width - 1) + if a % 2 != b % 2 then 1 else 0
  }

  lemma {:induction false} Pow2Of8()
    ensures Pow2(8) == 256
  {
    assert Pow2(4) == 16;
  }

  function BitOf(n: nat, k: nat): nat {
    n / Pow2(k) % 2
  }

  lemma {:induction false} BitOfHalf(n: nat, k: nat)
    requires k > 0
    ensures BitOf(n, k) == BitOf(n / 2, k - 1)
  {
    HalfOf(n, Pow2(k - 1));
  }

  lemma {:induction false} HalfOf(n: nat, p: nat)
    requires p >= 1
    ensures n / (2 * p) == n / 2 / p
  {
    var q := n / 2 / p;
    var r := n / 2 % p;
    assert n / 2 == q * p + r && n == 2 * (n / 2) + n % 2;
    assert n == q * (2 * p) + (2 * r + n % 2);
    QuotientIs(n, 2 * p, q, 2 * r + n % 2);
  }

  lemma {:induction false} QuotientIs(n: nat, d: nat, q: nat, r: nat)
    requires d >= 1 && n == q * d + r && r < d
    ensures n / d == q
  {
    var q', r' := n / d, n % d;
    assert n == q' * d + r';
    assert (q - q') * d == r' - r;
    if q > q' {
      assert (q - q') * d >= d by { MulAtLeast(q - q', d); }
    } else if q < q' {
      assert (q' - q) * d >= d by { MulAtLeast(q' - q, d); }
    }
  }

  lemma MulAtLeast(k: nat, d: nat)
    requires k >= 1
    ensures k * d >= d
  {
  }

  lemma {:induction false} XorSplits(a: nat, b: nat, width: nat)
    requires a < Pow2(width) && b < Pow2(width) && width > 0
    ensures XorBits(a, b, width) / 2 == XorBits(a / 2, b / 2, width - 1)
    ensures XorBits(a, b, width) % 2 == if a % 2 != b % 2 then 1 else 0
  {
    var half, bit := XorBits(a / 2, b / 2, width - 1), if a % 2 != b % 2 then 1 else 0;
    assert XorBits(a, b, width) == 2 * half + bit;
    assert (2 * half + bit) / 2 == half && (2 * half + bit) % 2 == bit;
  }

  /** Bit k of an exclusive-or is set where exactly one of the two bits is. */
  lemma {:induction false} XorIsBitwise(a: nat, b: nat, width: nat, k: nat)
    requires a < Pow2(width) && b < Pow2(width) && k < width
    ensures BitOf(XorBits(a, b, width), k) == if BitOf(a, k) != BitOf(b, k) then 1 else 0
  {
    XorSplits(a, b, width);
    var x := XorBits(a, b, width);
    if k == 0 {
      LowestBit(a);
      LowestBit(b);
      LowestBit(x);
    } else {
      BitOfHalf(x, k);
      BitOfHalf(a, k);
      BitOfHalf(b, k);
      XorIsBitwise(a / 2, b / 2, width - 1, k - 1);
    }
  }

  lemma LowestBit(n: nat)
    ensures BitOf(n, 0) == n % 2
  {
  }

  function XorByte(a: byte, b: byte): byte {
    Pow2Of8();
    XorBits(a, b, 8)
  }

  /** Octet by octet. */
  function Xor(a: seq<byte>, b: seq<byte>): (r: seq<byte>)
    requires |a| == |b|
    ensures |r| == |a|
  {
    seq(|a|, j requires 0 <= j < |a| => XorByte(a[j], b[j]))
  }

  /** Exclusive-or with the same octets twice gives the octets back. */
  lemma {:induction false} XorBitsTwice(a: nat, b: nat, width: nat)
    requires a < Pow2(width) && b < Pow2(width)
    ensures XorBits(XorBits(a, b, width), b, width) == a
  {
    if width > 0 {
      XorSplits(a, b, width);
      XorBitsTwice(a / 2, b / 2, width - 1);
    }
  }
}
