/**
 The 64-bit FNV-1a fingerprint over UTF-16 code units. The program computes on unbounded integers
 and masks after each multiplication; so does this model.
 */
module Fingerprint {
  import opened JsonText

  const OFFSET: int := 0xcbf29ce484222325
  const PRIME: int := 0x100000001b3
  /** The inverse of the prime modulo 2^64. */
  const PRIME_INVERSE: int := 0xce965057aff6957b
  const MODULUS: int := 0x1_0000_0000_0000_0000

  type Hash = h: int | 0 <= h < MODULUS

  /** Bitwise exclusive or of two unsigned integers. */
  function Xor(a: nat, b: nat): (r: nat)
    decreases a + b
  {
    if a == 0 && b == 0 then 0
    else (if a % 2 == b % 2 then 0 else 1) + 2 * Xor(a / 2, b / 2)
  }

  lemma {:induction false} XorBound(a: nat, b: nat, bits: nat)
    requires a < Pow2(bits) && b < Pow2(bits)
    ensures Xor(a, b) < Pow2(bits)
    decreases bits
  {
    if bits > 0 && !(a == 0 && b == 0) {
      XorBound(a / 2, b / 2, bits - 1);
    }
  }

  function Pow2(n: nat): (p: nat)
    ensures p > 0
  {
    if n == 0 then 1 else 2 * Pow2(n - 1)
  }

  /** Exclusive or undoes itself. */
  lemma {:induction false} XorTwice(a: nat, b: nat)
    ensures Xor(Xor(a, b), b) == a
    decreases a + b
  {
    if !(a == 0 && b == 0) {
      XorTwice(a / 2, b / 2);
      var r := Xor(a, b);
      assert r / 2 == Xor(a / 2, b / 2);
      assert r % 2 == if a % 2 == b % 2 then 0 else 1;
      XorUnfold(r, b);
    }
  }

  lemma XorUnfold(a: nat, b: nat)
    ensures Xor(a, b) == (if a % 2 == b % 2 then 0 else 1) + 2 * Xor(a / 2, b / 2)
  {
    if a == 0 && b == 0 {
      assert Xor(0, 0) == 0;
    }
  }

  lemma {:induction false} XorSymmetric(a: nat, b: nat)
    ensures Xor(a, b) == Xor(b, a)
    decreases a + b
  {
    if !(a == 0 && b == 0) {
      XorSymmetric(a / 2, b / 2);
    }
  }

  lemma HashWidth()
    ensures Pow2(64) == MODULUS
  {
    assert Pow2(16) == 0x1_0000 by {
      assert Pow2(8) == 0x100 by {
        assert Pow2(4) == 16;
      }
      assert Pow2(12) == 16 * Pow2(8) by {
        assert Pow2(10) == 4 * Pow2(8);
      }
      assert Pow2(14) == 4 * Pow2(12);
    }
    Pow2Sum(16, 16);
    Pow2Sum(32, 32);
  }

  lemma {:induction false} Pow2Sum(a: nat, b: nat)
    ensures Pow2(a + b) == Pow2(a) * Pow2(b)
  {
    if a > 0 {
      Pow2Sum(a - 1, b);
      assert Pow2(a + b) == 2 * (Pow2(a - 1) * Pow2(b)) == Pow2(a) * Pow2(b);
    }
  }

  lemma XorHash(h: Hash, u: Unit)
    ensures Xor(h, u) < MODULUS
  {
    HashWidth();
    XorBound(h, u, 64);
  }

  /** One iteration of the loop. */
  function Step(h: Hash, u: Unit): Hash {
    Xor(h, u) * PRIME % MODULUS
  }

  /** The state before an iteration, from the state after it. */
  function Unstep(h: Hash, u: Unit): Hash {
    var x := h * PRIME_INVERSE % MODULUS;
    XorHash(x, u);
    Xor(x, u)
  }

  lemma PrimeInverts(x: Hash)
    ensures (x * PRIME % MODULUS) * PRIME_INVERSE % MODULUS == x
    ensures (x * PRIME_INVERSE % MODULUS) * PRIME % MODULUS == x
  {
    MultiplyBack(x, PRIME, PRIME_INVERSE);
    MultiplyBack(x, PRIME_INVERSE, PRIME);
  }

  lemma MultiplyBack(x: Hash, p: int, q: int)
    requires p * q % MODULUS == 1
    ensures (x * p % MODULUS) * q % MODULUS == x
  {
    var k := x * p / MODULUS;
    var c := p * q / MODULUS;
    assert x * p == k * MODULUS + x * p % MODULUS;
    assert p * q == c * MODULUS + 1;
    calc {
      (x * p % MODULUS) * q;
      (x * p - k * MODULUS) * q;
      x * (p * q) - k * q * MODULUS;
      x * (c * MODULUS + 1) - k * q * MODULUS;
      x + (x * c - k * q) * MODULUS;
    }
    Remainder(x, x * c - k * q);
  }

  lemma Remainder(x: Hash, n: int)
    ensures (x + n * MODULUS) % MODULUS == x
  {
  }

  /** For a fixed code unit an iteration is a permutation of the 2^64 states. */
  lemma StepIsPermutation(h: Hash, u: Unit)
    ensures Unstep(Step(h, u), u) == h
    ensures Step(Unstep(h, u), u) == h
  {
    XorHash(h, u);
    PrimeInverts(Xor(h, u));
    XorTwice(h, u);
    PrimeInverts(h);
    XorTwice(h * PRIME_INVERSE % MODULUS, u);
  }

  /** The state after reading a text. */
  function Fold(h: Hash, t: Text): Hash
    decreases |t|
  {
    if t == [] then h else Fold(Step(h, t[0]), t[1..])
  }

  lemma {:induction false} FoldAppend(h: Hash, s: Text, t: Text)
    ensures Fold(h, s + t) == Fold(Fold(h, s), t)
    decreases |s|
  {
    if s == [] {
      assert s + t == t;
    } else {
      FoldAppend(Step(h, s[0]), s[1..], t);
      assert (s + t)[1..] == s[1..] + t;
    }
  }

  /** Reading any text is injective on states. */
  lemma {:induction false} FoldInjective(h: Hash, k: Hash, t: Text)
    requires Fold(h, t) == Fold(k, t)
    ensures h == k
    decreases |t|
  {
    if t != [] {
      FoldInjective(Step(h, t[0]), Step(k, t[0]), t[1..]);
      StepIsPermutation(h, t[0]);
      StepIsPermutation(k, t[0]);
    }
  }

  lemma StepSeparatesUnits(h: Hash, u: Unit, v: Unit)
    requires Step(h, u) == Step(h, v)
    ensures u == v
  {
    XorHash(h, u);
    XorHash(h, v);
    PrimeInverts(Xor(h, u));
    PrimeInverts(Xor(h, v));
    XorSymmetric(h, u);
    XorSymmetric(h, v);
    XorTwice(u, h);
    XorTwice(v, h);
  }

  function Hex(n: nat): Text
    decreases n
  {
    if n < 16 then [HexDigit(n)] else Hex(n / 16) + [HexDigit(n % 16)]
  }

  function PadStart(t: Text, width: nat): (r: Text)
    ensures |r| == if |t| < width then width else |t|
    decreases width - |t|
  {
    if |t| < width then PadStart([0x30] + t, width) else t
  }

  /** The loop of the program: exclusive or with each code unit, multiply, mask. */
  method CreateHash(value: Text) returns (text: Text)
    ensures text == Render(Fold(OFFSET, value))
  {
    var hash: int := OFFSET;
    var index := 0;
    while index < |value|
      invariant 0 <= index <= |value|
      invariant 0 <= hash < MODULUS
      invariant Fold(hash, value[index..]) == Fold(OFFSET, value)
    {
      hash := Xor(hash, value[index]);
      hash := hash * PRIME % MODULUS;
      assert value[index..][1..] == value[index + 1..];
      index := index + 1;
    }
    assert value[index..] == [];
    text := PadStart(Hex(hash), 16);
  }

  function Render(h: Hash): Text {
    PadStart(Hex(h), 16)
  }

  /** The number that a string of hexadecimal digits denotes. */
  function ReadHex(t: Text): int {
    if t == [] then 0
    else
      ReadHex(t[..|t| - 1]) * 16 +
      (match HexValue(t[|t| - 1]) case Some(d) => d case None => 0)
  }

  lemma {:induction false} ReadHexBack(n: nat)
    ensures ReadHex(Hex(n)) == n
    ensures forall i :: 0 <= i < |Hex(n)| ==> HexValue(Hex(n)[i]).Some?
    decreases n
  {
    if n < 16 {
      assert Hex(n)[..0] == [];
    } else {
      ReadHexBack(n / 16);
      assert Hex(n)[..|Hex(n)| - 1] == Hex(n / 16);
    }
  }

  lemma {:induction false} HexLength(n: nat, digits: nat)
    requires digits > 0 && n < Pow2(4 * digits)
    ensures |Hex(n)| <= digits
    decreases digits
  {
    if n >= 16 {
      Pow2Sum(4, 4 * digits - 4);
      assert Pow2(4) == 16 by {
        assert Pow2(2) == 4;
      }
      HexLength(n / 16, digits - 1);
    }
  }

  lemma {:induction false} ReadLeadingZero(t: Text)
    ensures ReadHex([0x30] + t) == ReadHex(t)
    decreases |t|
  {
    if t != [] {
      ReadLeadingZero(t[..|t| - 1]);
      assert ([0x30] + t)[..|t|] == [0x30] + t[..|t| - 1];
    } else {
      assert [0x30] + t == [0x30] && [0x30][..0] == [];
      assert ReadHex([0x30]) == 0;
    }
  }

  lemma {:induction false} ReadPadded(t: Text, width: nat)
    requires forall i :: 0 <= i < |t| ==> HexValue(t[i]).Some?
    ensures ReadHex(PadStart(t, width)) == ReadHex(t)
    ensures forall i :: 0 <= i < |PadStart(t, width)| ==> HexValue(PadStart(t, width)[i]).Some?
    decreases width - |t|
  {
    if |t| < width {
      ReadLeadingZero(t);
      ReadPadded([0x30] + t, width);
    }
  }

  /** Rendering is always 16 lower-case hexadecimal digits and loses nothing. */
  lemma RenderFaithful(h: Hash)
    ensures |Render(h)| == 16
    ensures forall i :: 0 <= i < 16 ==> HexValue(Render(h)[i]).Some?
    ensures ReadHex(Render(h)) == h
  {
    HashWidth();
    HexLength(h, 16);
    ReadHexBack(h);
    ReadPadded(Hex(h), 16);
  }

  /** Texts of equal length that differ in exactly one code unit never share a fingerprint. */
  lemma OneUnitChangesFingerprint(before: Text, u: Unit, v: Unit, after: Text)
    requires u != v
    ensures Render(Fold(OFFSET, before + [u] + after)) != Render(Fold(OFFSET, before + [v] + after))
  {
    var h := Fold(OFFSET, before);
    FoldAppend(OFFSET, before + [u], after);
    FoldAppend(OFFSET, before, [u]);
    FoldAppend(OFFSET, before + [v], after);
    FoldAppend(OFFSET, before, [v]);
    assert Fold(h, [u]) == Step(h, u) && Fold(h, [v]) == Step(h, v);
    RenderFaithful(Fold(OFFSET, before + [u] + after));
    RenderFaithful(Fold(OFFSET, before + [v] + after));
    if Fold(OFFSET, before + [u] + after) == Fold(OFFSET, before + [v] + after) {
      FoldInjective(Step(h, u), Step(h, v), after);
      StepSeparatesUnits(h, u, v);
    }
  }

  /** Two texts ending alike collide only if their beginnings already did. */
  lemma CommonSuffixKeepsApart(s: Text, t: Text, after: Text)
    ensures Render(Fold(OFFSET, s + after)) == Render(Fold(OFFSET, t + after))
      <==> Fold(OFFSET, s) == Fold(OFFSET, t)
  {
    FoldAppend(OFFSET, s, after);
    FoldAppend(OFFSET, t, after);
    RenderFaithful(Fold(OFFSET, s + after));
    RenderFaithful(Fold(OFFSET, t + after));
    if Fold(OFFSET, s + after) == Fold(OFFSET, t + after) {
      FoldInjective(Fold(OFFSET, s), Fold(OFFSET, t), after);
    }
  }

  // ---------------------------------------------------------------- known values

  lemma {:induction false} XorZero(a: nat)
    ensures Xor(a, 0) == a
    decreases a
  {
    if a > 0 {
      XorZero(a / 2);
    }
  }

  /** The low bits alone meet a small operand. */
  lemma {:induction false} XorLow(high: nat, low: nat, b: nat, bits: nat)
    requires low < Pow2(bits) && b < Pow2(bits)
    ensures Xor(high * Pow2(bits) + low, b) == high * Pow2(bits) + Xor(low, b)
    decreases bits
  {
    if bits == 0 {
      XorZero(high);
    } else {
      var p := Pow2(bits - 1);
      var a := high * Pow2(bits) + low;
      assert high * Pow2(bits) == 2 * (high * p);
      assert a / 2 == high * p + low / 2 && a % 2 == low % 2;
      XorLow(high, low / 2, b / 2, bits - 1);
      XorUnfold(a, b);
      XorUnfold(low, b);
    }
  }

  /** An iteration on a state given as its high 48 and its low 16 bits. */
  lemma StepIs(h: Hash, u: Unit, low: nat, mixed: nat)
    requires low == h % 0x1_0000 && mixed == Xor(low, u)
    ensures Step(h, u) == (h - low + mixed) * PRIME % MODULUS
  {
    assert Pow2(16) == 0x1_0000 by {
      assert Pow2(8) == 0x100;
      Pow2Sum(8, 8);
    }
    XorLow(h / 0x1_0000, low, u, 16);
  }

  lemma FirstMix()
    ensures Xor(0x2325, 0x61) == 0x2344
  {
    hide Xor;
    XorZero(0x46);
    XorUnfold(0x8c, 0x1);
    XorUnfold(0x119, 0x3);
    XorUnfold(0x232, 0x6);
    XorUnfold(0x464, 0xc);
    XorUnfold(0x8c9, 0x18);
    XorUnfold(0x1192, 0x30);
    XorUnfold(0x2325, 0x61);
  }

  lemma SecondMix()
    ensures Xor(0xec8c, 0x100) == 0xed8c
  {
    hide Xor;
    XorZero(0x76);
    XorUnfold(0xec, 0x1);
    XorUnfold(0x1d9, 0x2);
    XorUnfold(0x3b2, 0x4);
    XorUnfold(0x764, 0x8);
    XorUnfold(0xec8, 0x10);
    XorUnfold(0x1d91, 0x20);
    XorUnfold(0x3b23, 0x40);
    XorUnfold(0x7646, 0x80);
    XorUnfold(0xec8c, 0x100);
  }

  lemma FoldTwo(h: Hash, u: Unit, v: Unit)
    ensures Fold(h, []) == h && Fold(h, [u]) == Step(h, u) && Fold(h, [u, v]) == Step(Step(h, u), v)
  {
    hide Step;
    assert Fold(Step(Step(h, u), v), []) == Step(Step(h, u), v);
    assert [v][1..] == [];
    assert Fold(Step(h, u), [v]) == Step(Step(h, u), v);
    assert [u][1..] == [];
    assert [u, v][1..] == [v];
    assert Fold(h, [u, v]) == Fold(Step(h, u), [v]);
  }

  lemma FirstStep(h: Hash, u: Unit)
    requires h == 0xcbf29ce484222325 && u == 0x61
    ensures Step(h, u) == 0xaf63dc4c8601ec8c
  {
    hide Xor, Step;
    FirstMix();
    StepIs(h, u, 0x2325, 0x2344);
  }

  lemma SecondStep(h: Hash, u: Unit)
    requires h == 0xaf63dc4c8601ec8c && u == 0x100
    ensures Step(h, u) == 0x89ce207b546a4e4
  {
    hide Xor, Step;
    SecondMix();
    StepIs(h, u, 0xec8c, 0xed8c);
  }

  /** Known values: the empty text, `a`, and `a` followed by a code unit beyond one octet. */
  lemma KnownHashes(h: Hash, t: Text)
    requires h == Fold(OFFSET, t)
    ensures t == [] ==> h == 0xcbf29ce484222325
    ensures t == [0x61] ==> h == 0xaf63dc4c8601ec8c
    ensures t == [0x61, 0x100] ==> h == 0x89ce207b546a4e4
  {
    hide Xor, Step, Fold;
    FoldTwo(OFFSET, 0x61, 0x100);
    FirstStep(OFFSET, 0x61);
    SecondStep(Step(OFFSET, 0x61), 0x100);
  }
}
