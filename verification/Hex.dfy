/** Hexadecimal text and the byte strings the relay stores instead of it
    (nostream-share/src/utils/transform.ts), and the three byte tests that the
    repository compiles a hexadecimal prefix into. */
module Hex {
  type Byte = b: int | 0 <= b < 256

  predicate IsLowerHexDigit(c: char) {
    '0' <= c <= '9' || 'a' <= c <= 'f'
  }

  predicate IsHexDigit(c: char) {
    IsLowerHexDigit(c) || 'A' <= c <= 'F'
  }

  predicate IsLowerHex(s: string) {
    forall i :: 0 <= i < |s| ==> IsLowerHexDigit(s[i])
  }

  function Nibble(c: char): (n: nat)
    requires IsHexDigit(c)
    ensures n < 16
  {
    if '0' <= c <= '9' then c as int - '0' as int
    else if 'a' <= c <= 'f' then c as int - 'a' as int + 10
    else c as int - 'A' as int + 10
  }

  function Digit(n: nat): (c: char)
    requires n < 16
    ensures IsLowerHexDigit(c) && Nibble(c) == n
  {
    if n < 10 then ('0' as int + n) as char else ('a' as int + n - 10) as char
  }

  /** `Buffer.from(s, 'hex')`: pairs of digits, up to the first pair that is
      incomplete or not hexadecimal. */
  function ToBuffer(s: string): (b: seq<Byte>)
  {
    if |s| < 2 || !IsHexDigit(s[0]) || !IsHexDigit(s[1]) then []
    else [16 * Nibble(s[0]) + Nibble(s[1])] + ToBuffer(s[2..])
  }

  /** `b.toString('hex')`. */
  function FromBuffer(b: seq<Byte>): (s: string)
    ensures |s| == 2 * |b| && IsLowerHex(s)
  {
    if b == [] then "" else [Digit(b[0] / 16), Digit(b[0] % 16)] + FromBuffer(b[1..])
  }

  /** Bytes survive being shown as text. */
  lemma {:induction false} BytesRoundTrip(b: seq<Byte>)
    ensures ToBuffer(FromBuffer(b)) == b
  {
    if b != [] {
      BytesRoundTrip(b[1..]);
      assert FromBuffer(b)[2..] == FromBuffer(b[1..]);
    }
  }

  lemma LowerHexCons(s: string)
    requires |s| >= 2
    ensures IsLowerHex(s) <==> IsLowerHexDigit(s[0]) && IsLowerHexDigit(s[1]) && IsLowerHex(s[2..])
  {
    if IsLowerHexDigit(s[0]) && IsLowerHexDigit(s[1]) && IsLowerHex(s[2..]) {
      forall i | 0 <= i < |s| ensures IsLowerHexDigit(s[i]) {
        if i >= 2 { assert s[i] == s[2..][i - 2]; }
      }
    }
  }

  lemma StoredCons(s: string)
    requires |s| >= 2 && IsHexDigit(s[0]) && IsHexDigit(s[1])
    ensures FromBuffer(ToBuffer(s)) == [Digit(Nibble(s[0])), Digit(Nibble(s[1]))] + FromBuffer(ToBuffer(s[2..]))
  {
    var b := ToBuffer(s);
    assert b[1..] == ToBuffer(s[2..]);
    assert b[0] / 16 == Nibble(s[0]) && b[0] % 16 == Nibble(s[1]);
  }

  /** Text survives being stored as bytes exactly when it is lower-case
      hexadecimal of even length. */
  lemma {:induction false} TextRoundTrip(s: string)
    ensures FromBuffer(ToBuffer(s)) == s <==> IsLowerHex(s) && |s| % 2 == 0
    ensures IsLowerHex(s) ==> |ToBuffer(s)| == |s| / 2
  {
    if |s| >= 2 && IsHexDigit(s[0]) && IsHexDigit(s[1]) {
      TextRoundTrip(s[2..]);
      LowerHexCons(s);
      StoredCons(s);
      var n0, n1, back := Nibble(s[0]), Nibble(s[1]), FromBuffer(ToBuffer(s[2..]));
      assert s == [s[0], s[1]] + s[2..];
      assert [Digit(n0), Digit(n1)] + back == s <==> Digit(n0) == s[0] && Digit(n1) == s[1] && back == s[2..] by {
        assert ([Digit(n0), Digit(n1)] + back)[2..] == back;
      }
      assert IsLowerHexDigit(s[0]) <==> Digit(n0) == s[0];
      assert IsLowerHexDigit(s[1]) <==> Digit(n1) == s[1];
    } else {
      assert ToBuffer(s) == [];
      if |s| >= 2 { assert !IsLowerHexDigit(s[0]) || !IsLowerHexDigit(s[1]); }
    }
  }

  /** Two lower-case texts of even length with the same bytes are the same. */
  lemma ToBufferInjective(s: string, t: string)
    requires IsLowerHex(s) && IsLowerHex(t) && |s| % 2 == 0 && |t| % 2 == 0
    requires ToBuffer(s) == ToBuffer(t)
    ensures s == t
  {
    TextRoundTrip(s);
    TextRoundTrip(t);
  }

  // ---- byte tests of a compiled prefix ----

  /** `substring(b from 1 for n)`. */
  function Substring(b: seq<Byte>, n: nat): seq<Byte> {
    if n <= |b| then b[..n] else b
  }

  /** `a <= b` on bytea: lexicographic, a proper prefix being smaller. */
  predicate BytesLeq(a: seq<Byte>, b: seq<Byte>) {
    a == [] || (b != [] && (a[0] < b[0] || (a[0] == b[0] && BytesLeq(a[1..], b[1..]))))
  }

  predicate Between(x: seq<Byte>, low: seq<Byte>, high: seq<Byte>) {
    BytesLeq(low, x) && BytesLeq(x, high)
  }

  lemma HexTail(p: string)
    requires |p| >= 2 && IsLowerHex(p)
    ensures IsLowerHex(p[2..]) && IsHexDigit(p[0]) && IsHexDigit(p[1])
    ensures Digit(Nibble(p[0])) == p[0] && Digit(Nibble(p[1])) == p[1]
  {
    assert IsLowerHexDigit(p[0]) && IsLowerHexDigit(p[1]);
  }

  lemma PrefixSplit(p: string, s: string)
    requires |p| >= 2 && |s| >= 2
    ensures p <= s <==> p[0] == s[0] && p[1] == s[1] && p[2..] <= s[2..]
  {
    assert p == [p[0], p[1]] + p[2..];
    assert s == [s[0], s[1]] + s[2..];
    if p <= s {
      assert p == s[..|p|];
      assert p[2..] == s[2..][..|p| - 2];
    }
  }

  lemma ByteOfDigits(c: char, d: char, x: Byte)
    requires IsLowerHexDigit(c) && IsLowerHexDigit(d)
    ensures c == Digit(x / 16) && d == Digit(x % 16) <==> x == 16 * Nibble(c) + Nibble(d)
  {
    assert Digit(Nibble(c)) == c && Digit(Nibble(d)) == d;
  }

  /** Dropping a whole byte from both sides of a prefix test. */
  lemma PrefixStep(p: string, b: seq<Byte>)
    requires |p| >= 2 && IsLowerHex(p) && b != []
    requires IsHexDigit(p[0]) && IsHexDigit(p[1])
    ensures p <= FromBuffer(b) <==>
            b[0] == 16 * Nibble(p[0]) + Nibble(p[1]) && p[2..] <= FromBuffer(b[1..])
  {
    var s := FromBuffer(b);
    assert s[2..] == FromBuffer(b[1..]);
    assert IsLowerHexDigit(p[0]) && IsLowerHexDigit(p[1]);
    PrefixSplit(p, s);
    ByteOfDigits(p[0], p[1], b[0]);
  }

  lemma ToBufferCons(t: string, tail: string)
    requires |t| >= 2 && IsHexDigit(t[0]) && IsHexDigit(t[1]) && t[2..] == tail
    ensures ToBuffer(t) == [16 * Nibble(t[0]) + Nibble(t[1])] + ToBuffer(tail)
  {
  }

  lemma EqualCons(x: Byte, d: Byte, s: seq<Byte>, t: seq<Byte>)
    ensures [x] + s == [d] + t <==> x == d && s == t
  {
    assert ([x] + s)[0] == x && ([d] + t)[0] == d && ([x] + s)[1..] == s && ([d] + t)[1..] == t;
  }

  lemma EvenStep(p: string, b: seq<Byte>)
    requires IsLowerHex(p) && |p| % 2 == 0 && p != [] && b != []
    requires IsHexDigit(p[0]) && IsHexDigit(p[1])
    ensures Substring(b, |p| / 2) == ToBuffer(p) <==>
            b[0] == 16 * Nibble(p[0]) + Nibble(p[1]) && Substring(b[1..], |p[2..]| / 2) == ToBuffer(p[2..])
  {
    assert Substring(b, |p| / 2) == [b[0]] + Substring(b[1..], |p[2..]| / 2);
    ToBufferCons(p, p[2..]);
    EqualCons(b[0], 16 * Nibble(p[0]) + Nibble(p[1]), Substring(b[1..], |p[2..]| / 2), ToBuffer(p[2..]));
  }

  /** The test for a prefix of even length is the string-prefix test. */
  lemma {:induction false} EvenPrefix(p: string, b: seq<Byte>)
    requires IsLowerHex(p) && |p| % 2 == 0
    ensures Substring(b, |p| / 2) == ToBuffer(p) <==> p <= FromBuffer(b)
  {
    TextRoundTrip(p);
    if p != [] && b != [] {
      HexTail(p);
      PrefixStep(p, b);
      EvenPrefix(p[2..], b[1..]);
      EvenStep(p, b);
    }
  }

  /** One digit: the first byte lies between digit 0 and digit f. */
  lemma OneDigit(c: char, b: Byte)
    requires IsLowerHexDigit(c)
    ensures Between([b], ToBuffer([c] + "0"), ToBuffer([c] + "f")) <==> c == Digit(b / 16)
  {
    var low, high, x := [c] + "0", [c] + "f", [b];
    assert low[2..] == "" && high[2..] == "";
    assert ToBuffer(low) == [16 * Nibble(c)];
    assert ToBuffer(high) == [16 * Nibble(c) + 15];
    assert x[1..] == [] && ToBuffer(low)[1..] == [] && ToBuffer(high)[1..] == [];
    assert BytesLeq(ToBuffer(low), x) <==> 16 * Nibble(c) <= b;
    assert BytesLeq(x, ToBuffer(high)) <==> b <= 16 * Nibble(c) + 15;
    assert Digit(Nibble(c)) == c;
    assert Nibble(Digit(b / 16)) == b / 16;
  }

  lemma OneDigitPrefix(p: string, b: seq<Byte>)
    requires |p| == 1 && IsLowerHexDigit(p[0]) && b != []
    ensures Between(Substring(b, 1), ToBuffer(p + "0"), ToBuffer(p + "f")) <==> p <= FromBuffer(b)
  {
    assert Substring(b, 1) == [b[0]] && p == [p[0]];
    OneDigit(p[0], b[0]);
    assert FromBuffer(b)[0] == Digit(b[0] / 16);
    assert p <= FromBuffer(b) <==> p[0] == FromBuffer(b)[0];
  }

  /** The same first byte at both ends has to be the first byte. */
  lemma BetweenTails(x: seq<Byte>, low: seq<Byte>, high: seq<Byte>, xs: seq<Byte>, ls: seq<Byte>, hs: seq<Byte>)
    requires x != [] && low != [] && high != [] && low[0] == high[0]
    requires x[1..] == xs && low[1..] == ls && high[1..] == hs
    ensures Between(x, low, high) <==> x[0] == low[0] && Between(xs, ls, hs)
  {
  }

  lemma ToBufferHead(t: string, tail: string)
    requires |t| >= 2 && IsHexDigit(t[0]) && IsHexDigit(t[1]) && t[2..] == tail
    ensures ToBuffer(t) != [] && ToBuffer(t)[0] == 16 * Nibble(t[0]) + Nibble(t[1]) && ToBuffer(t)[1..] == ToBuffer(tail)
  {
  }

  lemma SubstringTail(b: seq<Byte>, n: nat)
    requires b != [] && n >= 1
    ensures Substring(b, n) != [] && Substring(b, n)[0] == b[0] && Substring(b, n)[1..] == Substring(b[1..], n - 1)
  {
  }

  lemma OddStep(p: string, b: seq<Byte>, n: nat)
    requires |p| >= 2 && b != [] && n >= 1 && IsHexDigit(p[0]) && IsHexDigit(p[1])
    ensures Between(Substring(b, n), ToBuffer(p + "0"), ToBuffer(p + "f")) <==>
            b[0] == 16 * Nibble(p[0]) + Nibble(p[1])
            && Between(Substring(b[1..], n - 1), ToBuffer(p[2..] + "0"), ToBuffer(p[2..] + "f"))
  {
    SubstringTail(b, n);
    ToBufferHead(p + "0", p[2..] + "0");
    ToBufferHead(p + "f", p[2..] + "f");
    BetweenTails(Substring(b, n), ToBuffer(p + "0"), ToBuffer(p + "f"),
                 Substring(b[1..], n - 1), ToBuffer(p[2..] + "0"), ToBuffer(p[2..] + "f"));
  }

  /** The BETWEEN test for a prefix of odd length is the string-prefix test. */
  lemma {:induction false} OddPrefix(p: string, b: seq<Byte>)
    requires IsLowerHex(p) && |p| % 2 == 1
    ensures Between(Substring(b, |p| / 2 + 1), ToBuffer(p + "0"), ToBuffer(p + "f")) <==> p <= FromBuffer(b)
  {
    var n := |p| / 2 + 1;
    assert IsLowerHexDigit(p[0]);
    if b == [] {
      assert ToBuffer(p + "0") != [] by { assert |p| >= 2 ==> IsLowerHexDigit(p[1]); }
    } else if |p| == 1 {
      OneDigitPrefix(p, b);
    } else {
      HexTail(p);
      assert IsLowerHexDigit(p[1]);
      PrefixStep(p, b);
      OddPrefix(p[2..], b[1..]);
      OddStep(p, b, n);
    }
  }

  /** The equality test for a full-length value is the string-prefix test,
      because identifiers and public keys are 32 bytes. */
  lemma ExactPrefix(p: string, b: seq<Byte>)
    requires IsLowerHex(p) && |p| == 64 && |b| == 32
    ensures b == ToBuffer(p) <==> p <= FromBuffer(b)
  {
    TextRoundTrip(p);
    BytesRoundTrip(b);
    if p <= FromBuffer(b) {
      assert p == FromBuffer(b);
    }
  }
}
