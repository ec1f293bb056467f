/**
 * CRC32C as nix/probe/cputest.c computes it: a raw update of a running value by one word. The register is a word; bit
 * `i` of its lower half is the coefficient of x^(31-i), so that a shift right multiplies by x (section 12.1 of RFC
 * 3720 names the polynomial).
 */
module Crc32c {
  import opened Cputest

  /** The Castagnoli polynomial without its x^32: the exponents of its terms. */
  predicate IsTerm(e: int) {
    e in {28, 27, 26, 25, 23, 22, 20, 19, 18, 14, 13, 11, 10, 9, 8, 6, 0}
  }

  /** 0x82F63B78. */
  function Poly(): Word {
    seq(WIDTH, i => i < 32 && IsTerm(31 - i))
  }

  function Bit(b: bool): nat {
    if b then 1 else 0
  }

  lemma {:induction false} NatOfNibble(a: bool, b: bool, c: bool, d: bool, rest: seq<bool>)
    ensures ToNat([a, b, c, d] + rest) == Bit(a) + 2 * Bit(b) + 4 * Bit(c) + 8 * Bit(d) + 16 * ToNat(rest)
  {
    var three, two, one := [b, c, d] + rest, [c, d] + rest, [d] + rest;
    assert ([a, b, c, d] + rest)[1..] == three;
    assert three[1..] == two;
    assert two[1..] == one;
    assert one[1..] == rest;
    assert ToNat(one) == Bit(d) + 2 * ToNat(rest);
    assert ToNat(two) == Bit(c) + 2 * ToNat(one);
    assert ToNat(three) == Bit(b) + 2 * ToNat(two);
  }

  /** The word is the constant of the loop. */
  lemma {:induction false} PolyIsTheConstant()
    ensures ToNat(Poly()) == 0x82F63B78
  {
    var zeros: seq<bool> := seq(32, _ => false);
    var n7 := [false, false, false, true] + zeros;
    var n6 := [false, true, false, false] + n7;
    var n5 := [true, true, true, true] + n6;
    var n4 := [false, true, true, false] + n5;
    var n3 := [true, true, false, false] + n4;
    var n2 := [true, true, false, true] + n3;
    var n1 := [true, true, true, false] + n2;
    var n0 := [false, false, false, true] + n1;
    assert Poly() == n0;
    ToNatZero(zeros);
    NatOfNibble(false, false, false, true, zeros);
    NatOfNibble(false, true, false, false, n7);
    NatOfNibble(true, true, true, true, n6);
    NatOfNibble(false, true, true, false, n5);
    NatOfNibble(true, true, false, false, n4);
    NatOfNibble(true, true, false, true, n3);
    NatOfNibble(true, true, true, false, n2);
    NatOfNibble(false, false, false, true, n1);
  }

  predicate Short(r: Word) {
    forall i :: 32 <= i < WIDTH ==> !r[i]
  }

  // ---------- the register ----------

  function Flip(r: Word, b: bool): Word {
    r[0 := r[0] != b]
  }

  function Shift(r: Word): Word {
    if r[0] then Xor(Shr(r, 1), Poly()) else Shr(r, 1)
  }

  function Shifts(r: Word, n: nat): Word
    decreases n
  {
    if n == 0 then r else Shifts(Shift(r), n - 1)
  }

  /** One bit of data at a time: the specification the bytewise loop is proved against. */
  function Feed(r: Word, bits: seq<bool>): Word
    decreases |bits|
  {
    if bits == [] then r else Feed(Shift(Flip(r, bits[0])), bits[1..])
  }

  function Crc(seed: Word, value: Word): Word {
    Low(Feed(seed, value), 32)
  }

  // ---------- linearity ----------

  lemma {:induction false} ShiftIsLinear(a: Word, b: Word)
    ensures Shift(Xor(a, b)) == Xor(Shift(a), Shift(b))
  {
  }

  function XorBits(a: seq<bool>, b: seq<bool>): (c: seq<bool>)
    requires |a| == |b|
    ensures |c| == |a|
  {
    seq(|a|, i requires 0 <= i < |a| => a[i] != b[i])
  }

  lemma {:induction false} FeedIsLinear(a: Word, b: Word, v: seq<bool>, w: seq<bool>)
    requires |v| == |w|
    ensures Feed(Xor(a, b), XorBits(v, w)) == Xor(Feed(a, v), Feed(b, w))
    decreases |v|
  {
    if v != [] {
      assert Flip(Xor(a, b), XorBits(v, w)[0]) == Xor(Flip(a, v[0]), Flip(b, w[0]));
      ShiftIsLinear(Flip(a, v[0]), Flip(b, w[0]));
      assert XorBits(v, w)[1..] == XorBits(v[1..], w[1..]);
      FeedIsLinear(Shift(Flip(a, v[0])), Shift(Flip(b, w[0])), v[1..], w[1..]);
    }
  }

  /** The checksum is linear over GF(2) in seed and word together. */
  lemma {:induction false} CrcIsLinear(a: Word, b: Word, v: Word, w: Word)
    ensures Crc(Xor(a, b), Xor(v, w)) == Xor(Crc(a, v), Crc(b, w))
  {
    FeedIsLinear(a, b, v, w);
    assert XorBits(v, w) == Xor(v, w);
    assert Low(Xor(Feed(a, v), Feed(b, w)), 32) == Xor(Low(Feed(a, v), 32), Low(Feed(b, w), 32));
  }

  lemma {:induction false} ShiftStaysShort(r: Word)
    requires Short(r)
    ensures Short(Shift(r))
  {
  }

  lemma {:induction false} FeedStaysShort(r: Word, bits: seq<bool>)
    requires Short(r)
    ensures Short(Feed(r, bits))
    decreases |bits|
  {
    if bits != [] {
      ShiftStaysShort(Flip(r, bits[0]));
      FeedStaysShort(Shift(Flip(r, bits[0])), bits[1..]);
    }
  }

  // ---------- the loop ----------

  /** Bits xor-ed in together and shifted out are bits fed one by one. */
  lemma {:induction false} ShiftsAreFeeds(r: Word, bits: seq<bool>)
    requires |bits| <= WIDTH
    ensures Shifts(Xor(r, Padded(bits)), |bits|) == Feed(r, bits)
    decreases |bits|
  {
    if bits == [] {
      assert Xor(r, Padded(bits)) == r;
    } else {
      var rest := Padded([false] + bits[1..]);
      assert Xor(r, Padded(bits)) == Xor(Flip(r, bits[0]), rest);
      ShiftIsLinear(Flip(r, bits[0]), rest);
      assert Shift(rest) == Padded(bits[1..]);
      ShiftsAreFeeds(Shift(Flip(r, bits[0])), bits[1..]);
    }
  }

  lemma {:induction false} FeedSplit(r: Word, a: seq<bool>, b: seq<bool>)
    ensures Feed(r, a + b) == Feed(Feed(r, a), b)
    decreases |a|
  {
    if a == [] {
      assert a + b == b;
    } else {
      assert (a + b)[1..] == a[1..] + b;
      FeedSplit(Shift(Flip(r, a[0])), a[1..], b);
    }
  }

  lemma {:induction false} ShiftsStep(r: Word, n: nat)
    ensures Shifts(r, n + 1) == Shift(Shifts(r, n))
    decreases n
  {
    if n > 0 {
      ShiftsStep(Shift(r), n - 1);
    }
  }

  lemma {:induction false} FeedNothing(r: Word)
    ensures Feed(r, []) == r
  {
  }

  lemma {:induction false} ByteOf(value: Word, byte: nat)
    requires byte < 8
    ensures Low(Shr(value, byte * 8), 8) == Padded(value[8 * byte..8 * byte + 8])
  {
  }

  lemma {:induction false} ShortIsLow(r: Word)
    requires Short(r)
    ensures Low(r, 32) == r
  {
  }

  method RefCrc32c(seed: Word, value: Word) returns (crc: Word)
    ensures crc == Crc(seed, value)
    ensures Short(seed) ==> crc == Feed(seed, value)
  {
    hide Feed, Padded, Low, Shr;
    FeedNothing(seed);
    crc := seed;
    for byte := 0 to 8
      invariant crc == Feed(seed, value[..8 * byte])
    {
      ByteOf(value, byte);
      crc := UpdateByte(crc, Low(Shr(value, byte * 8), 8), value[8 * byte..8 * byte + 8]);
      FeedSplit(seed, value[..8 * byte], value[8 * byte..8 * byte + 8]);
      assert value[..8 * (byte + 1)] == value[..8 * byte] + value[8 * byte..8 * byte + 8];
    }
    assert value[..64] == value;
    if Short(seed) {
      FeedStaysShort(seed, value);
      ShortIsLow(crc);
    }
    crc := Low(crc, 32);
  }

  method UpdateByte(crc0: Word, byte: Word, ghost bits: seq<bool>) returns (crc: Word)
    requires |bits| == 8 && byte == Padded(bits)
    ensures crc == Feed(crc0, bits)
  {
    crc := Xor(crc0, byte);
    for bit := 0 to 8
      invariant crc == Shifts(Xor(crc0, byte), bit)
    {
      ShiftsStep(Xor(crc0, byte), bit);
      HasMeans(crc, 0);
      crc := if Has(crc, 0) then Xor(Shr(crc, 1), Poly()) else Shr(crc, 1);
    }
    ShiftsAreFeeds(crc0, bits);
  }

  // ---------- polynomials over GF(2) ----------

  /** Coefficients, constant term first; beyond the end they are zero. */
  type Polynomial = seq<bool>

  function Coef(p: Polynomial, i: int): bool {
    0 <= i < |p| && p[i]
  }

  ghost predicate Same(p: Polynomial, q: Polynomial) {
    forall i :: Coef(p, i) == Coef(q, i)
  }

  function Plus(p: Polynomial, q: Polynomial): (s: Polynomial)
    ensures forall i :: Coef(s, i) == (Coef(p, i) != Coef(q, i))
  {
    var n := if |p| < |q| then |q| else |p|;
    seq(n, i => Coef(p, i) != Coef(q, i))
  }

  function TimesX(p: Polynomial): (s: Polynomial)
    ensures forall i :: Coef(s, i) == Coef(p, i - 1)
  {
    [false] + p
  }

  function Scaled(b: bool, p: Polynomial): Polynomial {
    if b then p else []
  }

  function Times(q: Polynomial, p: Polynomial): Polynomial {
    if q == [] then [] else Plus(Scaled(q[0], p), TimesX(Times(q[1..], p)))
  }

  /** x^32 and the terms. */
  function Castagnoli(): Polynomial {
    seq(33, i => i == 32 || IsTerm(i))
  }

  function PolynomialOf(r: Word): Polynomial {
    seq(32, i requires 0 <= i < 32 => r[31 - i])
  }

  /** The data in the order it is fed, times x^32, with the seed added to its first 32 bits: the highest power first. */
  function MessageOf(seed: Word, value: seq<bool>): Polynomial {
    seq(32 + |value|, i => Fed(seed, value, 31 + |value| - i))
  }

  function Fed(seed: Word, value: seq<bool>, t: int): bool {
    (0 <= t < |value| && value[t]) != (0 <= t < 32 && seed[t])
  }

  /** A remainder of at most 31st degree by the Castagnoli polynomial. */
  ghost predicate IsRemainder(m: Polynomial, r: Polynomial) {
    |r| <= 32 && exists q: Polynomial :: Same(m, Plus(Times(q, Castagnoli()), r))
  }

  /** One bit fed is a multiplication by x, the bit added at x^32, and the polynomial taken off if x^32 is there. */
  lemma {:induction false} ShiftDivides(r: Word, b: bool)
    requires Short(r)
    ensures forall i ::
      Coef(PolynomialOf(Shift(Flip(r, b))), i) ==
      ((Coef(TimesX(PolynomialOf(r)), i) != (i == 32 && b)) != Coef(Scaled(r[0] != b, Castagnoli()), i))
  {
    var f := Flip(r, b);
    forall i ensures Coef(PolynomialOf(Shift(f)), i) ==
      ((Coef(TimesX(PolynomialOf(r)), i) != (i == 32 && b)) != Coef(Scaled(f[0], Castagnoli()), i))
    {
      if 1 <= i < 32 {
        assert Coef(TimesX(PolynomialOf(r)), i) == Coef(PolynomialOf(r), i - 1) == r[32 - i] == f[32 - i];
        assert Coef(PolynomialOf(Shift(f)), i) == Shift(f)[31 - i];
      }
    }
  }

  lemma {:induction false} MessageAt(seed: Word, value: seq<bool>, i: int)
    ensures Coef(MessageOf(seed, value), i) == (i >= 0 && Fed(seed, value, 31 + |value| - i))
  {
  }

  lemma {:induction false} MessageGrows(seed: Word, value: seq<bool>, b: bool)
    ensures forall i :: Coef(MessageOf(seed, value + [b]), i) == (Coef(MessageOf(seed, value), i - 1) != (i == 32 && b))
  {
    forall i ensures Coef(MessageOf(seed, value + [b]), i) == (Coef(MessageOf(seed, value), i - 1) != (i == 32 && b)) {
      var t := 32 + |value| - i;
      MessageAt(seed, value + [b], i);
      MessageAt(seed, value, i - 1);
      if 0 <= t <= |value| {
        assert (value + [b])[t] == if t < |value| then value[t] else b;
      }
    }
  }

  lemma {:induction false} DivisionGoesOn(m: Polynomial, q: Polynomial, r: Word, b: bool, m': Polynomial)
    requires Short(r) && Same(m, Plus(Times(q, Castagnoli()), PolynomialOf(r)))
    requires forall i :: Coef(m', i) == (Coef(m, i - 1) != (i == 32 && b))
    ensures Same(m', Plus(Times([r[0] != b] + q, Castagnoli()), PolynomialOf(Shift(Flip(r, b)))))
  {
    var quotient, after := [r[0] != b] + q, PolynomialOf(Shift(Flip(r, b)));
    var product := Times(q, Castagnoli());
    ShiftDivides(r, b);
    assert quotient[1..] == q;
    forall i ensures Coef(m', i) == Coef(Plus(Times(quotient, Castagnoli()), after), i) {
      assert Coef(m, i - 1) == Coef(Plus(product, PolynomialOf(r)), i - 1);
    }
  }

  lemma {:induction false} FeedDivides(seed: Word, value: seq<bool>) returns (q: Polynomial)
    requires Short(seed)
    ensures Same(MessageOf(seed, value), Plus(Times(q, Castagnoli()), PolynomialOf(Feed(seed, value))))
    decreases |value|
  {
    if value == [] {
      q := [];
      forall i ensures Coef(MessageOf(seed, value), i) == Coef(Plus(Times(q, Castagnoli()), PolynomialOf(seed)), i) {
        MessageAt(seed, value, i);
        assert Coef(PolynomialOf(seed), i) == (0 <= i < 32 && seed[31 - i]);
      }
    } else {
      var init, b := value[..|value| - 1], value[|value| - 1];
      assert value == init + [b];
      q := FeedDivides(seed, init);
      FeedStaysShort(seed, init);
      FeedSplit(seed, init, [b]);
      assert Feed(Feed(seed, init), [b]) == Shift(Flip(Feed(seed, init), b));
      MessageGrows(seed, init, b);
      DivisionGoesOn(MessageOf(seed, init), q, Feed(seed, init), b, MessageOf(seed, value));
      q := [Feed(seed, init)[0] != b] + q;
    }
  }

  // ---------- one remainder only ----------

  lemma {:induction false} TimesOfZeros(n: nat)
    ensures Same(Times(seq(n, _ => false), Castagnoli()), [])
  {
    if n > 0 {
      TimesOfZeros(n - 1);
      assert seq<bool>(n, _ => false)[1..] == seq<bool>(n - 1, _ => false);
      var rest := Times(seq(n - 1, _ => false), Castagnoli());
      forall i ensures Coef(Times(seq(n, _ => false), Castagnoli()), i) == Coef([], i) {
        assert Coef(rest, i - 1) == Coef([], i - 1);
      }
    }
  }

  lemma {:induction false} TimesPadded(q: Polynomial, n: nat)
    ensures Same(Times(q + seq(n, _ => false), Castagnoli()), Times(q, Castagnoli()))
  {
    var zeros: Polynomial := seq(n, _ => false);
    if q == [] {
      TimesOfZeros(n);
      assert q + zeros == zeros;
    } else {
      TimesPadded(q[1..], n);
      assert (q + zeros)[1..] == q[1..] + zeros;
      forall i ensures Coef(Times(q + zeros, Castagnoli()), i) == Coef(Times(q, Castagnoli()), i) {
        assert Coef(Times(q[1..] + zeros, Castagnoli()), i - 1) == Coef(Times(q[1..], Castagnoli()), i - 1);
      }
    }
  }

  lemma {:induction false} LinearStep(a: bool, b: bool, p: Polynomial, ta: Polynomial, tb: Polynomial, ab: Polynomial)
    requires Same(ab, Plus(ta, tb))
    ensures Same(Plus(Scaled(a != b, p), TimesX(ab)),
                 Plus(Plus(Scaled(a, p), TimesX(ta)), Plus(Scaled(b, p), TimesX(tb))))
  {
    forall i
      ensures Coef(Plus(Scaled(a != b, p), TimesX(ab)), i) ==
              Coef(Plus(Plus(Scaled(a, p), TimesX(ta)), Plus(Scaled(b, p), TimesX(tb))), i)
    {
      assert Coef(ab, i - 1) == Coef(Plus(ta, tb), i - 1);
    }
  }

  lemma {:induction false} TimesIsLinear(a: Polynomial, b: Polynomial)
    requires |a| == |b|
    ensures Same(Times(XorBits(a, b), Castagnoli()), Plus(Times(a, Castagnoli()), Times(b, Castagnoli())))
  {
    if a != [] {
      TimesIsLinear(a[1..], b[1..]);
      assert XorBits(a, b)[1..] == XorBits(a[1..], b[1..]);
      LinearStep(a[0], b[0], Castagnoli(), Times(a[1..], Castagnoli()), Times(b[1..], Castagnoli()),
                 Times(XorBits(a[1..], b[1..]), Castagnoli()));
    }
  }

  lemma {:induction false} TopCoefficient(q: Polynomial)
    requires q != [] && q[|q| - 1]
    ensures Coef(Times(q, Castagnoli()), |q| + 31)
  {
    if |q| > 1 {
      TopCoefficient(q[1..]);
    } else {
      assert q[1..] == [];
    }
  }

  /** A multiple that has no power of 32 or more is zero. */
  lemma {:induction false} SmallMultiple(q: Polynomial)
    requires forall i :: i >= 32 ==> !Coef(Times(q, Castagnoli()), i)
    ensures Same(Times(q, Castagnoli()), [])
    decreases |q|
  {
    if q != [] {
      var init := q[..|q| - 1];
      if q[|q| - 1] {
        TopCoefficient(q);
      } else {
        assert q == init + seq(1, _ => false);
        TimesPadded(init, 1);
        assert forall i :: i >= 32 ==> Coef(Times(init, Castagnoli()), i) == Coef(Times(q, Castagnoli()), i);
        SmallMultiple(init);
        assert forall i :: Coef(Times(q, Castagnoli()), i) == Coef(Times(init, Castagnoli()), i) == Coef([], i);
      }
    }
  }

  lemma {:induction false} RemaindersAgree(m: Polynomial, a: Polynomial, b: Polynomial)
    requires IsRemainder(m, a) && IsRemainder(m, b)
    ensures Same(a, b)
  {
    var p, q :| Same(m, Plus(Times(p, Castagnoli()), a)) && Same(m, Plus(Times(q, Castagnoli()), b));
    var p', q': Polynomial := p + seq(|q|, _ => false), q + seq(|p|, _ => false);
    TimesPadded(p, |q|);
    TimesPadded(q, |p|);
    TimesIsLinear(p', q');
    var multiple := Times(XorBits(p', q'), Castagnoli());
    forall i ensures Coef(multiple, i) == (Coef(a, i) != Coef(b, i)) {
      assert Coef(multiple, i) == Coef(Plus(Times(p', Castagnoli()), Times(q', Castagnoli())), i);
      assert Coef(Times(p', Castagnoli()), i) == Coef(Times(p, Castagnoli()), i);
      assert Coef(Times(q', Castagnoli()), i) == Coef(Times(q, Castagnoli()), i);
      assert Coef(m, i) == Coef(Plus(Times(p, Castagnoli()), a), i) == Coef(Plus(Times(q, Castagnoli()), b), i);
    }
    SmallMultiple(XorBits(p', q'));
    forall i ensures Coef(a, i) == Coef(b, i) {
      assert Coef(multiple, i) == Coef([], i);
    }
  }

  /**
   * With a 32-bit seed the checksum is the remainder, and the only one, of the data times x^32, the seed added to its
   * first 32 bits, by the Castagnoli polynomial.
   */
  lemma {:induction false} CrcIsRemainder(seed: Word, value: Word, r: Polynomial)
    requires Short(seed) && |r| == 32
    ensures Short(Crc(seed, value))
    ensures IsRemainder(MessageOf(seed, value), r) <==> r == PolynomialOf(Crc(seed, value))
  {
    FeedStaysShort(seed, value);
    assert Crc(seed, value) == Feed(seed, value);
    var mine := PolynomialOf(Crc(seed, value));
    var q := FeedDivides(seed, value);
    assert IsRemainder(MessageOf(seed, value), mine);
    if IsRemainder(MessageOf(seed, value), r) {
      RemaindersAgree(MessageOf(seed, value), r, mine);
      forall i | 0 <= i < 32 ensures r[i] == mine[i] {
        assert Coef(r, i) == Coef(mine, i);
      }
    }
  }
}
