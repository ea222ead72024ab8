/** Counting leading zero bits (nostream-share/src/utils/proof-of-work.ts,
    NIP-13 "Validating"). */
module ProofOfWork {
  import opened Hex

  function Pow2(n: nat): (p: nat)
    ensures p > 0
  {
    if n == 0 then 1 else 2 * Pow2(n - 1)
  }

  /** The bytes read as one big-endian number. */
  function Number(hash: seq<Byte>): nat {
    if hash == [] then 0 else 256 * Number(hash[..|hash| - 1]) + hash[|hash| - 1]
  }

  /** How many of the eight bits stand before the highest one that is set. */
  function ZerosOf(b: nat): nat
    requires b < 256
  {
    if b == 0 then 8 else if b >= 128 then 0 else if b >= 64 then 1 else if b >= 32 then 2
    else if b >= 16 then 3 else if b >= 8 then 4 else if b >= 4 then 5 else if b >= 2 then 6 else 7
  }

  method Msb(byte: Byte) returns (n: nat)
    ensures n == ZerosOf(byte)
  {
    var b: nat := byte;
    var shifts := 0;
    if b == 0 {
      return 8;
    }
    b := b / 2;
    while b != 0
      invariant shifts <= 7 && b < 256
      invariant ZerosOf(byte) == if b == 0 then 7 - shifts else ZerosOf(b) - shifts - 1
    {
      shifts := shifts + 1;
      b := b / 2;
    }
    n := 7 - shifts;
  }

  function LeadingZeros(hash: seq<Byte>): nat {
    if hash == [] then 0
    else ZerosOf(hash[0]) + if hash[0] == 0 then LeadingZeros(hash[1..]) else 0
  }

  method GetLeadingZeroBits(hash: seq<Byte>) returns (total: nat)
    ensures total == LeadingZeros(hash)
  {
    var i := 0;
    total := 0;
    while i < |hash|
      invariant 0 <= i <= |hash|
      invariant LeadingZeros(hash) == total + LeadingZeros(hash[i..])
    {
      var bits := Msb(hash[i]);
      total := total + bits;
      assert hash[i..][0] == hash[i] && hash[i..][1..] == hash[i + 1..];
      if bits != 8 {
        break;
      }
      i := i + 1;
    }
  }

  // ---- the meaning of the count ----

  lemma {:induction false} PowAdd(a: nat, b: nat)
    ensures Pow2(a + b) == Pow2(a) * Pow2(b)
  {
    if a > 0 { PowAdd(a - 1, b); }
  }

  lemma PowByte(n: nat)
    ensures Pow2(8 * (n + 1)) == 256 * Pow2(8 * n)
  {
    PowAdd(8, 8 * n);
    assert Pow2(8) == 256;
  }

  lemma ShiftDigit(high: nat, p: nat, low: nat, digit: nat)
    ensures 256 * (high * p + low) + digit == high * (256 * p) + (256 * low + digit)
  {}

  lemma {:induction false} NumberCons(hash: seq<Byte>)
    requires hash != []
    ensures Number(hash) == hash[0] * Pow2(8 * (|hash| - 1)) + Number(hash[1..])
  {
    if |hash| > 1 {
      var n := |hash| - 1;
      var init, last := hash[..n], hash[n];
      NumberCons(init);
      PowByte(n - 1);
      ShiftDigit(init[0], Pow2(8 * (n - 1)), Number(init[1..]), last);
      assert hash[1..][..n - 1] == init[1..] && hash[1..][n - 1] == last;
    }
  }

  lemma {:induction false} NumberBounded(hash: seq<Byte>)
    ensures Number(hash) < Pow2(8 * |hash|)
  {
    if hash != [] {
      NumberBounded(hash[..|hash| - 1]);
      PowByte(|hash| - 1);
    }
  }

  /** Within one byte: b has at least d leading zeros exactly when it is below
      two to the number of bits that remain. */
  lemma ByteMeaning(b: nat, d: nat)
    requires b < 256 && d <= 8
    ensures ZerosOf(b) >= d <==> b < Pow2(8 - d)
  {
    assert Pow2(1) == 2 && Pow2(2) == 4 && Pow2(3) == 8 && Pow2(4) == 16;
    assert Pow2(5) == 32 && Pow2(6) == 64 && Pow2(7) == 128 && Pow2(8) == 256;
  }

  /** A number whose high digit is below a bound is below the scaled bound, and
      the other way round. */
  lemma HighDigitDecides(high: nat, low: nat, scale: nat, bound: nat)
    requires low < scale
    ensures high * scale + low < bound * scale <==> high < bound
  {
    if high < bound {
      assert (high + 1) * scale <= bound * scale;
    } else {
      assert high * scale >= bound * scale;
    }
  }

  /** Up to eight bits: the first byte decides. */
  lemma FirstByteDecides(b: nat, low: nat, rest: nat, d: nat)
    requires b < 256 && d <= 8 && low < Pow2(rest)
    ensures ZerosOf(b) >= d <==> b * Pow2(rest) + low < Pow2(8 + rest - d)
  {
    ByteMeaning(b, d);
    PowAdd(8 - d, rest);
    HighDigitDecides(b, low, Pow2(rest), Pow2(8 - d));
  }

  lemma AtLeastOneTimes(n: nat, k: nat)
    requires k > 0
    ensures n * k >= n && k * n >= n
  {
    assert n * k - n == n * (k - 1);
  }

  /** Past eight bits: a first byte that is not zero is already too large. */
  lemma FirstByteTooLarge(b: nat, low: nat, rest: nat, d: nat)
    requires b > 0 && 8 < d <= 8 + rest
    ensures b * Pow2(rest) + low >= Pow2(8 + rest - d)
  {
    PowAdd(8 + rest - d, d - 8);
    assert (8 + rest - d) + (d - 8) == rest;
    AtLeastOneTimes(Pow2(8 + rest - d), Pow2(d - 8));
    AtLeastOneTimes(Pow2(rest), b);
  }

  /** The count reaches a difficulty exactly when the number is below two to
      the number of bits that remain. */
  lemma {:induction false} CountMeaning(hash: seq<Byte>, d: nat)
    requires d <= 8 * |hash|
    ensures LeadingZeros(hash) >= d <==> Number(hash) < Pow2(8 * |hash| - d)
  {
    if hash != [] {
      var rest := 8 * (|hash| - 1);
      NumberCons(hash);
      NumberBounded(hash[1..]);
      if d <= 8 {
        FirstByteDecides(hash[0], Number(hash[1..]), rest, d);
      } else if hash[0] == 0 {
        CountMeaning(hash[1..], d - 8);
      } else {
        FirstByteTooLarge(hash[0], Number(hash[1..]), rest, d);
      }
    }
  }
}
