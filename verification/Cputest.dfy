/**
 * The reference bit loops of nix/probe/cputest.c over 64-bit words. A word is its bits, least significant first; every
 * shift of a one is by a count below the width, as C demands.
 */
module Cputest {
  const WIDTH: nat := 64

  function Zeros(n: nat): seq<bool> {
    seq(n, _ => false)
  }

  type Word = w: seq<bool> | |w| == WIDTH witness Zeros(WIDTH)

  function Zero(): Word {
    Zeros(WIDTH)
  }

  /** `1ULL << n`. */
  function OneAt(n: nat): Word
    requires n < WIDTH
  {
    seq(WIDTH, i => i == n)
  }

  function Shr(x: Word, n: nat): Word {
    seq(WIDTH, i requires 0 <= i => i + n < WIDTH && x[i + n])
  }

  function Shl(x: Word, n: nat): Word {
    seq(WIDTH, i requires 0 <= i < WIDTH => i >= n && x[i - n])
  }

  function And(x: Word, y: Word): Word {
    seq(WIDTH, i requires 0 <= i < WIDTH => x[i] && y[i])
  }

  function Or(x: Word, y: Word): Word {
    seq(WIDTH, i requires 0 <= i < WIDTH => x[i] || y[i])
  }

  function Xor(x: Word, y: Word): Word {
    seq(WIDTH, i requires 0 <= i < WIDTH => x[i] != y[i])
  }

  /** The lowest `n` bits. */
  function Low(x: Word, n: nat): Word {
    seq(WIDTH, i requires 0 <= i < WIDTH => i < n && x[i])
  }

  /** `(x & (1ULL << n)) != 0`. */
  predicate Has(x: Word, n: nat)
    requires n < WIDTH
  {
    And(x, OneAt(n)) != Zero()
  }

  lemma {:induction false} HasMeans(x: Word, n: nat)
    requires n < WIDTH
    ensures Has(x, n) <==> x[n]
  {
    if x[n] {
      assert And(x, OneAt(n))[n] && !Zero()[n];
    } else {
      assert And(x, OneAt(n)) == Zero();
    }
  }

  // ---------- the number a word writes ----------

  function Pow2(n: nat): (p: nat)
    ensures p > 0
  {
    if n == 0 then 1 else 2 * Pow2(n - 1)
  }

  function ToNat(bits: seq<bool>): nat {
    if bits == [] then 0 else (if bits[0] then 1 else 0) + 2 * ToNat(bits[1..])
  }

  lemma {:induction false} ToNatBound(bits: seq<bool>)
    ensures ToNat(bits) < Pow2(|bits|)
  {
    if bits != [] {
      ToNatBound(bits[1..]);
    }
  }

  lemma {:induction false} ToNatSplit(low: seq<bool>, high: seq<bool>)
    ensures ToNat(low + high) == ToNat(low) + Pow2(|low|) * ToNat(high)
  {
    if low == [] {
      assert low + high == high;
    } else {
      ToNatSplit(low[1..], high);
      assert (low + high)[1..] == low[1..] + high;
      Twice(Pow2(|low| - 1), ToNat(high));
    }
  }

  lemma {:induction false} Twice(a: nat, b: nat)
    ensures 2 * (a * b) == (2 * a) * b
  {
  }

  lemma {:induction false} ToNatZero(bits: seq<bool>)
    requires forall i :: 0 <= i < |bits| ==> !bits[i]
    ensures ToNat(bits) == 0
  {
    if bits != [] {
      ToNatZero(bits[1..]);
    }
  }

  lemma {:induction false} QuotientIs(a: nat, m: nat, q: nat, r: nat)
    requires m > 0 && r < m && a == m * q + r
    ensures a % m == r
  {
    var d: int := a / m - q;
    assert m * d == r - a % m;
    assert d >= 1 ==> m * d >= m;
    assert d <= -1 ==> m * d + m <= 0;
  }

  /** Keeping the low bits is taking the remainder. */
  lemma {:induction false} LowIsRemainder(x: Word, n: nat)
    requires n <= WIDTH
    ensures ToNat(Low(x, n)) == ToNat(x) % Pow2(n)
  {
    var low, high := x[..n], x[n..];
    assert x == low + high;
    ToNatSplit(low, high);
    ToNatBound(low);
    QuotientIs(ToNat(x), Pow2(n), ToNat(high), ToNat(low));
    assert Low(x, n) == low + Low(x, n)[n..];
    ToNatSplit(low, Low(x, n)[n..]);
    ToNatZero(Low(x, n)[n..]);
  }

  // ---------- counting ----------

  /** How many of the lowest `i` bits are set. */
  function Rank(m: Word, i: nat): (n: nat)
    requires i <= |m|
    ensures n <= i
  {
    if i == 0 then 0 else Rank(m, i - 1) + if m[i - 1] then 1 else 0
  }

  lemma {:induction false} RankGrows(m: Word, i: nat, j: nat)
    requires i <= j <= |m|
    ensures Rank(m, i) <= Rank(m, j)
    ensures i < j && m[i] ==> Rank(m, i) < Rank(m, j)
    decreases j - i
  {
    if i < j {
      RankGrows(m, i + 1, j);
    }
  }

  lemma {:induction false} RankPastLast(m: Word, i: nat, j: nat)
    requires i <= j <= |m| && forall k :: i <= k < j ==> !m[k]
    ensures Rank(m, i) == Rank(m, j)
    decreases j
  {
    if i < j {
      RankPastLast(m, i, j - 1);
    }
  }

  lemma {:induction false} SomeBit(x: Word) returns (p: nat)
    requires x != Zero()
    ensures p < WIDTH && x[p]
  {
    p :| p < WIDTH && x[p] != Zero()[p];
  }

  method RefPopcount(x0: Word) returns (n: nat)
    ensures n == Rank(x0, WIDTH)
  {
    n := 0;
    var x := x0;
    ghost var k: nat := 0;
    assert Shr(x0, 0) == x0 && Shr(x0, WIDTH) == Zero();
    while x != Zero()
      invariant k <= WIDTH && x == Shr(x0, k) && n == Rank(x0, k)
      decreases WIDTH - k
    {
      HasMeans(x, 0);
      assert x[0] == x0[k];
      n := n + if Has(x, 0) then 1 else 0;
      assert Shr(Shr(x0, k), 1) == Shr(x0, k + 1);
      x, k := Shr(x, 1), k + 1;
    }
    forall i | k <= i < WIDTH ensures !x0[i] {
      assert Shr(x0, k)[i - k] == x0[i] == Zero()[i - k];
    }
    RankPastLast(x0, k, WIDTH);
  }

  /** The number of zeros below the lowest one. */
  method RefCtz(x0: Word) returns (n: nat)
    ensures n <= WIDTH && (forall i :: 0 <= i < n ==> !x0[i]) && (n < WIDTH ==> x0[n])
    ensures n == WIDTH <==> x0 == Zero()
  {
    if x0 == Zero() {
      return WIDTH;
    }
    n := 0;
    var x := x0;
    ghost var p := SomeBit(x0);
    assert Shr(x0, 0) == x0;
    HasMeans(x, 0);
    while !Has(x, 0)
      invariant n <= p && x == Shr(x0, n)
      invariant forall i :: 0 <= i < n ==> !x0[i]
      invariant Has(x, 0) <==> x0[n]
      decreases WIDTH - n
    {
      assert Shr(Shr(x0, n), 1) == Shr(x0, n + 1);
      x, n := Shr(x, 1), n + 1;
      HasMeans(x, 0);
    }
    assert x0[n] != Zero()[n];
  }

  /** The number of zeros above the highest one. */
  method RefClz(x0: Word) returns (n: nat)
    ensures n <= WIDTH && (forall i :: WIDTH - n <= i < WIDTH ==> !x0[i]) && (n < WIDTH ==> x0[WIDTH - 1 - n])
    ensures n == WIDTH <==> x0 == Zero()
  {
    if x0 == Zero() {
      return WIDTH;
    }
    n := 0;
    var x := x0;
    hide Has;
    ghost var p := SomeBit(x0);
    assert Shl(x0, 0) == x0;
    HasMeans(x, WIDTH - 1);
    while !Has(x, WIDTH - 1)
      invariant n <= WIDTH - 1 - p && x == Shl(x0, n)
      invariant forall i :: WIDTH - n <= i < WIDTH ==> !x0[i]
      invariant Has(x, WIDTH - 1) <==> x0[WIDTH - 1 - n]
      decreases WIDTH - n
    {
      assert Shl(Shl(x0, n), 1) == Shl(x0, n + 1);
      x, n := Shl(x, 1), n + 1;
      HasMeans(x, WIDTH - 1);
    }
    assert x0[WIDTH - 1 - n] != Zero()[WIDTH - 1 - n];
  }

  // ---------- scattering and gathering ----------

  /** Bit `i` of the result is the bit of `x` whose place is the number of mask bits below `i`. */
  function Deposited(x: Word, mask: Word): Word {
    seq(WIDTH, i requires 0 <= i < WIDTH => mask[i] && x[Rank(mask, i)])
  }

  /** The bits of `x` under the lowest `i` mask bits, lowest first. */
  function Picked(x: Word, mask: Word, i: nat): (bits: seq<bool>)
    requires i <= WIDTH
    ensures |bits| == Rank(mask, i)
  {
    if i == 0 then [] else Picked(x, mask, i - 1) + if mask[i - 1] then [x[i - 1]] else []
  }

  function Padded(bits: seq<bool>): Word {
    seq(WIDTH, i requires 0 <= i < WIDTH => i < |bits| && bits[i])
  }

  function Gathered(x: Word, mask: Word): Word {
    Padded(Picked(x, mask, WIDTH))
  }

  method RefPdep(x0: Word, mask: Word) returns (result: Word)
    ensures result == Deposited(x0, mask)
  {
    result := Zero();
    var x := x0;
    assert Shr(x0, 0) == x0;
    for bit := 0 to WIDTH
      invariant x == Shr(x0, Rank(mask, bit))
      invariant forall i :: 0 <= i < bit ==> result[i] == (mask[i] && x0[Rank(mask, i)])
      invariant forall i :: bit <= i < WIDTH ==> !result[i]
    {
      HasMeans(mask, bit);
      if !Has(mask, bit) {
        continue;
      }
      HasMeans(x, 0);
      assert x[0] == x0[Rank(mask, bit)];
      if Has(x, 0) {
        result := Or(result, OneAt(bit));
      }
      assert Shr(Shr(x0, Rank(mask, bit)), 1) == Shr(x0, Rank(mask, bit) + 1);
      x := Shr(x, 1);
    }
  }

  method RefPext(x: Word, mask: Word) returns (result: Word)
    ensures result == Gathered(x, mask)
  {
    result := Zero();
    var out := 0;
    for bit := 0 to WIDTH
      invariant out == Rank(mask, bit) && result == Padded(Picked(x, mask, bit))
    {
      HasMeans(mask, bit);
      if !Has(mask, bit) {
        assert Picked(x, mask, bit + 1) == Picked(x, mask, bit);
        continue;
      }
      HasMeans(x, bit);
      if Has(x, bit) {
        result := Or(result, OneAt(out));
      }
      out := out + 1;
    }
  }

  lemma {:induction false} PickedAt(x: Word, mask: Word, i: nat, p: nat)
    requires p < i <= WIDTH && mask[p]
    ensures Rank(mask, p) < Rank(mask, i) && Picked(x, mask, i)[Rank(mask, p)] == x[p]
  {
    RankGrows(mask, p, i);
    if p < i - 1 {
      PickedAt(x, mask, i - 1, p);
    }
  }

  lemma {:induction false} PickedOfDeposited(x: Word, mask: Word, i: nat)
    requires i <= WIDTH
    ensures Picked(Deposited(x, mask), mask, i) == x[..Rank(mask, i)]
  {
    if i > 0 {
      PickedOfDeposited(x, mask, i - 1);
    }
  }

  /** Gathering what was scattered gives the low bits: `x` modulo 2 to the mask's count. */
  lemma {:induction false} PextOfPdep(x: Word, mask: Word)
    ensures Gathered(Deposited(x, mask), mask) == Low(x, Rank(mask, WIDTH))
    ensures ToNat(Gathered(Deposited(x, mask), mask)) == ToNat(x) % Pow2(Rank(mask, WIDTH))
  {
    PickedOfDeposited(x, mask, WIDTH);
    assert Gathered(Deposited(x, mask), mask) == Low(x, Rank(mask, WIDTH));
    LowIsRemainder(x, Rank(mask, WIDTH));
  }

  /** Scattering what was gathered gives the masked bits. */
  lemma {:induction false} PdepOfPext(x: Word, mask: Word)
    ensures Deposited(Gathered(x, mask), mask) == And(x, mask)
  {
    forall i | 0 <= i < WIDTH ensures Deposited(Gathered(x, mask), mask)[i] == And(x, mask)[i] {
      if mask[i] {
        PickedAt(x, mask, WIDTH, i);
      }
    }
  }

  // ---------- bytes ----------

  function Swapped(x: Word): Word {
    seq(WIDTH, i requires 0 <= i < WIDTH => x[8 * (7 - i / 8) + i % 8])
  }

  method RefBswap(x: Word) returns (r: Word)
    ensures r == Swapped(x)
  {
    r := Zero();
    for byte := 0 to 8
      invariant forall i :: 0 <= i < 8 * byte ==> r[i] == x[8 * (byte - 1 - i / 8) + i % 8]
      invariant forall i :: 8 * byte <= i < WIDTH ==> !r[i]
    {
      r := Or(Shl(r, 8), Low(Shr(x, byte * 8), 8));
    }
  }

  lemma {:induction false} SwappedTwice(x: Word)
    ensures Swapped(Swapped(x)) == x
  {
  }

  // ---------- carry and borrow ----------

  const MAX := Pow2(64) - 1

  /** What a sum or difference becomes in a register. */
  function Wrapped(n: int): nat {
    n % Pow2(64)
  }

  /** The probe's flag for an add with carry is the true carry out. */
  lemma {:induction false} AdcFlag(x: nat, other: nat)
    requires x <= MAX && other <= MAX
    ensures Wrapped(x + other + 1) < x || other == MAX <==> x + other + 1 > MAX
  {
    WrapOnce(x + other + 1);
  }

  /** The probe's flag for a subtract with borrow is the true borrow. */
  lemma {:induction false} SbbFlag(x: nat, other: nat)
    requires x <= MAX && other <= MAX
    ensures x < Wrapped(other + 1) || other == MAX <==> x - other - 1 < 0
  {
    WrapOnce(other + 1);
  }

  lemma {:induction false} WrapOnce(n: nat)
    requires n <= 2 * MAX + 1
    ensures Wrapped(n) == if n <= MAX then n else n - MAX - 1
  {
    if n > MAX {
      QuotientIs(n, Pow2(64), 1, n - MAX - 1);
    } else {
      QuotientIs(n, Pow2(64), 0, n);
    }
  }
}
