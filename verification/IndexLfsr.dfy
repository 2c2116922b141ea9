/** The peer-index generator, a 24-bit linear-feedback shift register, as functions on its state. */
module LfsrSpec {
  const LFSR_POLY: bv32 := 0xd80000
  const LIMIT: nat := 0x100_0000

  function Step(l: bv32): bv32 {
    (l >> 1) ^ ((0 - (l & 1)) & LFSR_POLY)
  }

  /** Nonzero 24-bit values. */
  predicate InRange(l: bv32) {
    0 < l < 0x100_0000
  }

  lemma StepStaysInRange(l: bv32)
    requires InRange(l)
    ensures InRange(Step(l))
  {
  }

  lemma StepIsInjective(l: bv32, m: bv32)
    requires InRange(l) && InRange(m) && Step(l) == Step(m)
    ensures l == m
  {
  }

  /** The register without its missing zero, masked. */
  function Output(l: bv32, mask: bv32): (index: nat)
    requires InRange(l) && mask < 0x100_0000
    ensures index < LIMIT
  {
    assert ((l - 1) ^ mask) < 0x100_0000;
    ((l - 1) ^ mask) as nat
  }

  lemma ValueIsInjective(a: bv32, b: bv32)
    requires a as nat == b as nat
    ensures a == b
  {
    assert (a as nat) as bv32 == a;
    assert (b as nat) as bv32 == b;
  }

  lemma MaskedIsInjective(l: bv32, m: bv32, mask: bv32)
    requires (l - 1) ^ mask == (m - 1) ^ mask
    ensures l == m
  {
  }

  lemma OutputIsInjective(l: bv32, m: bv32, mask: bv32)
    requires InRange(l) && InRange(m) && mask < 0x100_0000
    requires Output(l, mask) == Output(m, mask)
    ensures l == m
  {
    ValueIsInjective((l - 1) ^ mask, (m - 1) ^ mask);
    MaskedIsInjective(l, m, mask);
  }

  function Iterate(seed: bv32, n: nat): (l: bv32)
    requires InRange(seed)
    ensures InRange(l)
  {
    if n == 0 then seed
    else
      StepStaysInRange(Iterate(seed, n - 1));
      Step(Iterate(seed, n - 1))
  }

  /** The assertion of `next` has not fired for the first n calls. */
  ghost predicate NeverBack(seed: bv32, n: nat)
    requires InRange(seed)
  {
    forall k | 1 <= k <= n :: Iterate(seed, k) != seed
  }

  /** Running back from two equal states. */
  lemma {:induction false} EqualStatesMeetSeed(seed: bv32, i: nat, j: nat)
    requires InRange(seed) && i < j && Iterate(seed, i) == Iterate(seed, j)
    ensures Iterate(seed, j - i) == seed
  {
    if i > 0 {
      hide Step;
      StepIsInjective(Iterate(seed, i - 1), Iterate(seed, j - 1));
      EqualStatesMeetSeed(seed, i - 1, j - 1);
    }
  }

  /** For every seed and mask, all indexes returned before the assertion fires are pairwise distinct
      and below 2^24. */
  lemma IndexesAreDistinct(seed: bv32, mask: bv32, n: nat, i: nat, j: nat)
    requires InRange(seed) && mask < 0x100_0000 && NeverBack(seed, n) && i < j < n
    ensures Output(Iterate(seed, i), mask) != Output(Iterate(seed, j), mask)
    ensures Output(Iterate(seed, i), mask) < LIMIT
  {
    if Output(Iterate(seed, i), mask) == Output(Iterate(seed, j), mask) {
      OutputIsInjective(Iterate(seed, i), Iterate(seed, j), mask);
      EqualStatesMeetSeed(seed, i, j);
    }
  }

  /** The register's states up to the n-th, and how many values there are. */
  function States(seed: bv32, n: nat): set<nat>
    requires InRange(seed)
  {
    if n == 0 then {Value(Iterate(seed, 0))} else States(seed, n - 1) + {Value(Iterate(seed, n))}
  }

  function UpTo(n: nat): (s: set<nat>)
    ensures |s| == n && forall k: nat :: k in s <==> 1 <= k <= n
  {
    if n == 0 then {} else UpTo(n - 1) + {n}
  }

  ghost predicate IsState(seed: bv32, n: nat, v: nat)
    requires InRange(seed)
  {
    exists k: nat :: k <= n && v == Value(Iterate(seed, k))
  }

  lemma {:induction false} StatesDiffer(seed: bv32, n: nat, m: nat)
    requires InRange(seed) && NeverBack(seed, m) && n <= m
    ensures |States(seed, n)| == n + 1
    ensures forall v | v in States(seed, n) :: IsState(seed, n, v)
  {
    hide InRange, Iterate, Value;
    if n > 0 {
      StatesDiffer(seed, n - 1, m);
      var last := Value(Iterate(seed, n));
      if last in States(seed, n - 1) {
        assert IsState(seed, n - 1, last);
        var k: nat :| k <= n - 1 && last == Value(Iterate(seed, k));
        SameValue(Iterate(seed, k), Iterate(seed, n));
        EqualStatesMeetSeed(seed, k, n);
      }
      assert IsState(seed, n, last);
      forall v | v in States(seed, n - 1)
        ensures IsState(seed, n, v)
      {
        assert IsState(seed, n - 1, v);
      }
    } else {
      assert IsState(seed, 0, Value(Iterate(seed, 0)));
    }
  }

  function Value(l: bv32): nat {
    l as nat
  }

  lemma SameValue(l: bv32, m: bv32)
    requires Value(l) == Value(m)
    ensures l == m
  {
    ValueIsInjective(l, m);
  }

  lemma ValueInRange(l: bv32)
    requires InRange(l)
    ensures 1 <= Value(l) < LIMIT
  {
  }

  lemma SubsetSize(a: set<nat>, b: set<nat>)
    requires a <= b
    ensures |a| <= |b|
  {
    assert b == a + (b - a);
  }
}

/** The register runs through all nonzero values. Reading a value's bits from the top as the
    coefficients of a polynomial over the two-element field, a step multiplies by x modulo a primitive
    polynomial of degree 24; squaring is linear, so a high power of x takes one squaring per bit. */
module LfsrCycle {
  import opened LfsrSpec

  /** The value of the polynomial 1, and the number of nonzero values. */
  const ONE: bv32 := 0x80_0000
  const CYCLE: nat := 0xff_ffff

  function Plus(a: bv32, b: bv32): bv32 {
    a ^ b
  }

  predicate HasBit(a: bv32, bit: bv32) {
    a & bit != 0
  }

  function Term(a: bv32, bit: bv32, c: bv32): bv32 {
    if HasBit(a, bit) then c else 0
  }

  function FourTerms(a: bv32, bit: bv32, c0: bv32, c1: bv32, c2: bv32, c3: bv32): bv32 {
    Plus(Plus(Term(a, bit, c0), Term(a, bit >> 1, c1)), Plus(Term(a, bit >> 2, c2), Term(a, bit >> 3, c3)))
  }

  /** The square of a polynomial: the sum of the squares of its terms. */
  function Squared(a: bv32): bv32 {
    Plus(Plus(Plus(FourTerms(a, 0x800000, 0x800000, 0x200000, 0x80000, 0x20000),
                   FourTerms(a, 0x80000, 0x8000, 0x2000, 0x800, 0x200)),
              Plus(FourTerms(a, 0x8000, 0x80, 0x20, 0x8, 0x2),
                   FourTerms(a, 0x800, 0xd80000, 0x360000, 0xd8000, 0x36000))),
         Plus(FourTerms(a, 0x80, 0xd800, 0x3600, 0xd80, 0x360),
              FourTerms(a, 0x8, 0xd8, 0x36, 0xd8000d, 0x5a0003)))
  }

  lemma Associates(x: bv32, y: bv32, z: bv32)
    ensures Plus(Plus(x, y), z) == Plus(x, Plus(y, z))
  {
  }

  lemma PlusCommutes(x: bv32, y: bv32)
    ensures Plus(x, y) == Plus(y, x)
  {
  }

  lemma Swap(x: bv32, y: bv32, z: bv32, w: bv32)
    ensures Plus(Plus(x, y), Plus(z, w)) == Plus(Plus(x, z), Plus(y, w))
  {
    hide Plus;
    Associates(x, y, Plus(z, w));
    Associates(y, z, w);
    PlusCommutes(y, z);
    Associates(z, y, w);
    Associates(x, z, Plus(y, w));
  }

  predicate OneBit(bit: bv32) {
    bit & (bit - 1) == 0
  }

  lemma TermIsLinear(a: bv32, b: bv32, bit: bv32, c: bv32)
    requires OneBit(bit)
    ensures Term(Plus(a, b), bit, c) == Plus(Term(a, bit, c), Term(b, bit, c))
  {
    hide HasBit, Plus;
    BitIsLinear(a, b, bit);
    NothingToAdd(c);
  }

  lemma BitIsLinear(a: bv32, b: bv32, bit: bv32)
    requires OneBit(bit)
    ensures HasBit(Plus(a, b), bit) <==> HasBit(a, bit) != HasBit(b, bit)
  {
    assert (a ^ b) & bit == (a & bit) ^ (b & bit);
    OneBitMask(a, bit);
    OneBitMask(b, bit);
    NothingToAdd(bit);
  }

  lemma OneBitMask(a: bv32, bit: bv32)
    requires OneBit(bit)
    ensures a & bit == 0 || a & bit == bit
  {
  }

  lemma NothingToAdd(c: bv32)
    ensures Plus(c, 0) == Plus(0, c) == c && Plus(c, c) == Plus(0, 0) == 0
  {
  }

  lemma FourAreLinear(a: bv32, b: bv32, bit: bv32, c0: bv32, c1: bv32, c2: bv32, c3: bv32)
    requires OneBit(bit) && OneBit(bit >> 1) && OneBit(bit >> 2) && OneBit(bit >> 3)
    ensures FourTerms(Plus(a, b), bit, c0, c1, c2, c3)
         == Plus(FourTerms(a, bit, c0, c1, c2, c3), FourTerms(b, bit, c0, c1, c2, c3))
  {
    hide Plus, Term, OneBit;
    TermIsLinear(a, b, bit, c0);
    TermIsLinear(a, b, bit >> 1, c1);
    TermIsLinear(a, b, bit >> 2, c2);
    TermIsLinear(a, b, bit >> 3, c3);
    Swap(Term(a, bit, c0), Term(b, bit, c0), Term(a, bit >> 1, c1), Term(b, bit >> 1, c1));
    Swap(Term(a, bit >> 2, c2), Term(b, bit >> 2, c2), Term(a, bit >> 3, c3), Term(b, bit >> 3, c3));
    Swap(Plus(Term(a, bit, c0), Term(a, bit >> 1, c1)), Plus(Term(b, bit, c0), Term(b, bit >> 1, c1)),
         Plus(Term(a, bit >> 2, c2), Term(a, bit >> 3, c3)), Plus(Term(b, bit >> 2, c2), Term(b, bit >> 3, c3)));
  }

  lemma SquaredIsLinear(a: bv32, b: bv32)
    ensures Squared(Plus(a, b)) == Plus(Squared(a), Squared(b))
  {
    hide Plus, FourTerms;
    FourAreLinear(a, b, 0x800000, 0x800000, 0x200000, 0x80000, 0x20000);
    FourAreLinear(a, b, 0x80000, 0x8000, 0x2000, 0x800, 0x200);
    FourAreLinear(a, b, 0x8000, 0x80, 0x20, 0x8, 0x2);
    FourAreLinear(a, b, 0x800, 0xd80000, 0x360000, 0xd8000, 0x36000);
    FourAreLinear(a, b, 0x80, 0xd800, 0x3600, 0xd80, 0x360);
    FourAreLinear(a, b, 0x8, 0xd8, 0x36, 0xd8000d, 0x5a0003);
    var a0 := FourTerms(a, 0x800000, 0x800000, 0x200000, 0x80000, 0x20000);
    var b0 := FourTerms(b, 0x800000, 0x800000, 0x200000, 0x80000, 0x20000);
    var a1 := FourTerms(a, 0x80000, 0x8000, 0x2000, 0x800, 0x200);
    var b1 := FourTerms(b, 0x80000, 0x8000, 0x2000, 0x800, 0x200);
    var a2 := FourTerms(a, 0x8000, 0x80, 0x20, 0x8, 0x2);
    var b2 := FourTerms(b, 0x8000, 0x80, 0x20, 0x8, 0x2);
    var a3 := FourTerms(a, 0x800, 0xd80000, 0x360000, 0xd8000, 0x36000);
    var b3 := FourTerms(b, 0x800, 0xd80000, 0x360000, 0xd8000, 0x36000);
    var a4 := FourTerms(a, 0x80, 0xd800, 0x3600, 0xd80, 0x360);
    var b4 := FourTerms(b, 0x80, 0xd800, 0x3600, 0xd80, 0x360);
    var a5 := FourTerms(a, 0x8, 0xd8, 0x36, 0xd8000d, 0x5a0003);
    var b5 := FourTerms(b, 0x8, 0xd8, 0x36, 0xd8000d, 0x5a0003);
    Swap(a0, b0, a1, b1);
    Swap(a2, b2, a3, b3);
    Swap(a4, b4, a5, b5);
    Swap(Plus(a0, a1), Plus(b0, b1), Plus(a2, a3), Plus(b2, b3));
    Swap(Plus(Plus(a0, a1), Plus(a2, a3)), Plus(Plus(b0, b1), Plus(b2, b3)), Plus(a4, a5), Plus(b4, b5));
  }

  function Shifted(a: bv32): bv32 {
    a >> 1
  }

  function Feedback(a: bv32): bv32 {
    (0 - (a & 1)) & LFSR_POLY
  }

  lemma StepIs(a: bv32)
    ensures Step(a) == Plus(Shifted(a), Feedback(a))
  {
  }

  lemma PartsAreLinear(a: bv32, b: bv32)
    ensures Shifted(Plus(a, b)) == Plus(Shifted(a), Shifted(b))
    ensures Feedback(Plus(a, b)) == Plus(Feedback(a), Feedback(b))
  {
  }

  lemma StepIsLinear(a: bv32, b: bv32)
    ensures Step(Plus(a, b)) == Plus(Step(a), Step(b))
  {
    hide *;
    StepIs(a);
    StepIs(b);
    StepIs(Plus(a, b));
    PartsAreLinear(a, b);
    Swap(Shifted(a), Shifted(b), Feedback(a), Feedback(b));
  }

  /** Squaring a multiple of x multiplies the square by x twice. */
  predicate Commutes(a: bv32) {
    Squared(Step(a)) == Step(Step(Squared(a)))
  }

  lemma SumCommutes(a: bv32, b: bv32)
    requires Commutes(a) && Commutes(b)
    ensures Commutes(Plus(a, b))
  {
    hide Squared, Step, Plus;
    StepIsLinear(a, b);
    SquaredIsLinear(a, b);
    SquaredIsLinear(Step(a), Step(b));
    StepIsLinear(Squared(a), Squared(b));
    StepIsLinear(Step(Squared(a)), Step(Squared(b)));
  }

  lemma Part0Commutes(a: bv32)
    ensures Commutes(a & 0xfc0000)
  {
  }

  lemma Part1Commutes(a: bv32)
    ensures Commutes(a & 0x3f000)
  {
  }

  lemma Part2Commutes(a: bv32)
    ensures Commutes(a & 0xfc0)
  {
  }

  lemma Part3Commutes(a: bv32)
    ensures Commutes(a & 0x3f)
  {
  }

  lemma AllCommute(a: bv32)
    requires InRange(a)
    ensures Commutes(a)
  {
    hide Commutes, Plus;
    Part0Commutes(a);
    Part1Commutes(a);
    Part2Commutes(a);
    Part3Commutes(a);
    var (p0, p1, p2, p3) := (a & 0xfc0000, a & 0x3f000, a & 0xfc0, a & 0x3f);
    SumCommutes(p0, p1);
    SumCommutes(p2, p3);
    SumCommutes(Plus(p0, p1), Plus(p2, p3));
    Parts(a);
  }

  lemma Parts(a: bv32)
    requires InRange(a)
    ensures Plus(Plus(a & 0xfc0000, a & 0x3f000), Plus(a & 0xfc0, a & 0x3f)) == a
  {
  }

  // Powers of x

  /** The n-th power of x, as a value. */
  function Power(n: nat): (l: bv32)
    ensures InRange(l)
  {
    Iterate(ONE, n)
  }

  lemma {:induction false} PowerOfDouble(n: nat)
    ensures Power(2 * n) == Squared(Power(n))
  {
    if n > 0 {
      hide Squared, Step;
      PowerOfDouble(n - 1);
      AllCommute(Power(n - 1));
      assert Power(2 * n) == Step(Power(2 * n - 1)) && Power(2 * n - 1) == Step(Power(2 * n - 2));
    } else {
      assert Squared(ONE) == ONE;
    }
  }

  /** One more bit of the exponent. */
  function Next(v: bv32, bit: nat): bv32 {
    if bit == 1 then Step(Squared(v)) else Squared(v)
  }

  lemma OneMoreBit(n: nat, v: bv32, bit: nat)
    requires Power(n) == v && bit < 2
    ensures Power(2 * n + bit) == Next(v, bit)
  {
    PowerOfDouble(n);
    hide Squared, Step;
  }

  lemma Goes(n: nat, v: bv32, bit: nat, w: bv32)
    requires Power(n) == v && bit < 2 && w == Next(v, bit)
    ensures Power(2 * n + bit) == w
  {
    hide Next, Power;
    OneMoreBit(n, v, bit);
  }

  lemma First()
    ensures Power(1) == 0x40_0000
  {
    assert Power(1) == Step(Power(0));
  }

  lemma WholeCycleBegins()
    ensures Power(0x1fff) == 0x5a06f
  {
    hide Power;
    First();
    Goes(0x1, 0x400000, 1, 0x100000);
    Goes(0x3, 0x100000, 1, 0x10000);
    Goes(0x7, 0x10000, 1, 0x100);
    Goes(0xf, 0x100, 1, 0x1b000);
    Goes(0x1f, 0x1b000, 1, 0x145);
    Goes(0x3f, 0x145, 1, 0xf4ab1a);
    Goes(0x7f, 0xf4ab1a, 1, 0x8a619e);
    Goes(0xff, 0x8a619e, 1, 0xf599d5);
    Goes(0x1ff, 0xf599d5, 1, 0xcdd7eb);
    Goes(0x3ff, 0xcdd7eb, 1, 0xd50fa);
    Goes(0x7ff, 0xd50fa, 1, 0xb4210b);
    Goes(0xfff, 0xb4210b, 1, 0x5a06f);
  }

  /** A whole cycle leads back. */
  lemma WholeCycle()
    ensures Power(0xffffff) == 0x800000
  {
    hide Power;
    WholeCycleBegins();
    Goes(0x1fff, 0x5a06f, 1, 0x410cf4);
    Goes(0x3fff, 0x410cf4, 1, 0x67716b);
    Goes(0x7fff, 0x67716b, 1, 0x54b8be);
    Goes(0xffff, 0x54b8be, 1, 0xc97b44);
    Goes(0x1ffff, 0xc97b44, 1, 0x3b2a0e);
    Goes(0x3ffff, 0x3b2a0e, 1, 0xdb8575);
    Goes(0x7ffff, 0xdb8575, 1, 0xbee92a);
    Goes(0xfffff, 0xbee92a, 1, 0x9ce2fe);
    Goes(0x1fffff, 0x9ce2fe, 1, 0xf3e055);
    Goes(0x3fffff, 0xf3e055, 1, 0xa01ffe);
    Goes(0x7fffff, 0xa01ffe, 1, 0x800000);
  }

  lemma ThirdBegins()
    ensures Power(0xaaa) == 0x1c9ad
  {
    hide Power;
    First();
    Goes(0x1, 0x400000, 0, 0x200000);
    Goes(0x2, 0x200000, 1, 0x40000);
    Goes(0x5, 0x40000, 0, 0x2000);
    Goes(0xa, 0x2000, 1, 0x4);
    Goes(0x15, 0x4, 0, 0x36);
    Goes(0x2a, 0x36, 1, 0xb4076d);
    Goes(0x55, 0xb4076d, 0, 0xe8fb6d);
    Goes(0xaa, 0xe8fb6d, 1, 0xca2de3);
    Goes(0x155, 0xca2de3, 0, 0xcf0b86);
    Goes(0x2aa, 0xcf0b86, 1, 0x8f491d);
    Goes(0x555, 0x8f491d, 0, 0x1c9ad);
  }

  /** 1/3 of it does not. */
  lemma Third()
    ensures Power(0x555555) == 0x720800
  {
    hide Power;
    ThirdBegins();
    Goes(0xaaa, 0x1c9ad, 1, 0x98dbe6);
    Goes(0x1555, 0x98dbe6, 0, 0x8c8319);
    Goes(0x2aaa, 0x8c8319, 1, 0xb2219d);
    Goes(0x5555, 0xb2219d, 0, 0xd3b385);
    Goes(0xaaaa, 0xd3b385, 1, 0xa3195f);
    Goes(0x15555, 0xa3195f, 0, 0xd15f82);
    Goes(0x2aaaa, 0xd15f82, 1, 0x951d17);
    Goes(0x55555, 0x951d17, 0, 0xed415a);
    Goes(0xaaaaa, 0xed415a, 1, 0xe1fbca);
    Goes(0x155555, 0xe1fbca, 0, 0xa60c7f);
    Goes(0x2aaaaa, 0xa60c7f, 1, 0x720800);
  }

  lemma FifthBegins()
    ensures Power(0xccc) == 0x411d4
  {
    hide Power;
    First();
    Goes(0x1, 0x400000, 1, 0x100000);
    Goes(0x3, 0x100000, 0, 0x20000);
    Goes(0x6, 0x20000, 0, 0x800);
    Goes(0xc, 0x800, 1, 0x6c0000);
    Goes(0x19, 0x6c0000, 1, 0x145000);
    Goes(0x33, 0x145000, 0, 0x22022);
    Goes(0x66, 0x22022, 0, 0xd80585);
    Goes(0xcc, 0xd80585, 1, 0xbe9c1a);
    Goes(0x199, 0xbe9c1a, 1, 0x86559b);
    Goes(0x333, 0x86559b, 0, 0x379394);
    Goes(0x666, 0x379394, 0, 0x411d4);
  }

  /** 1/5 of it does not. */
  lemma Fifth()
    ensures Power(0x333333) == 0xd59b8f
  {
    hide Power;
    FifthBegins();
    Goes(0xccc, 0x411d4, 1, 0x1d6aa);
    Goes(0x1999, 0x1d6aa, 1, 0xa9abfb);
    Goes(0x3333, 0xa9abfb, 0, 0xdc82be);
    Goes(0x6666, 0xdc82be, 0, 0x77f683);
    Goes(0xcccc, 0x77f683, 1, 0x49b952);
    Goes(0x19999, 0x49b952, 1, 0xc9ebf3);
    Goes(0x33333, 0xc9ebf3, 0, 0xf48246);
    Goes(0x66666, 0xf48246, 0, 0x7f96bb);
    Goes(0xccccc, 0x7f96bb, 1, 0x49fe5a);
    Goes(0x199999, 0x49fe5a, 1, 0xd59b8f);
  }

  lemma SeventhBegins()
    ensures Power(0x924) == 0x9e1687
  {
    hide Power;
    First();
    Goes(0x1, 0x400000, 0, 0x200000);
    Goes(0x2, 0x200000, 0, 0x80000);
    Goes(0x4, 0x80000, 1, 0x4000);
    Goes(0x9, 0x4000, 0, 0x20);
    Goes(0x12, 0x20, 0, 0xd80);
    Goes(0x24, 0xd80, 1, 0x76dc00);
    Goes(0x49, 0x76dc00, 0, 0xc428a2);
    Goes(0x92, 0xc428a2, 0, 0xa0f585);
    Goes(0x124, 0xa0f585, 1, 0xabdc4f);
    Goes(0x249, 0xabdc4f, 0, 0xe4bc42);
    Goes(0x492, 0xe4bc42, 0, 0x9e1687);
  }

  /** 1/7 of it does not. */
  lemma Seventh()
    ensures Power(0x249249) == 0xb54700
  {
    hide Power;
    SeventhBegins();
    Goes(0x924, 0x9e1687, 1, 0x1df81d);
    Goes(0x1249, 0x1df81d, 0, 0x80a127);
    Goes(0x2492, 0x80a127, 0, 0x16d30);
    Goes(0x4924, 0x16d30, 1, 0x76b664);
    Goes(0x9249, 0x76b664, 0, 0x11933c);
    Goes(0x12492, 0x11933c, 0, 0xcec8c);
    Goes(0x24924, 0xcec8c, 1, 0x773c23);
    Goes(0x49249, 0x773c23, 0, 0x462784);
    Goes(0x92492, 0x462784, 0, 0x18103e);
    Goes(0x124924, 0x18103e, 1, 0xb54700);
  }

  lemma ThirteenthBegins()
    ensures Power(0x4ec) == 0x98127f
  {
    hide Power;
    First();
    Goes(0x1, 0x400000, 0, 0x200000);
    Goes(0x2, 0x200000, 0, 0x80000);
    Goes(0x4, 0x80000, 1, 0x4000);
    Goes(0x9, 0x4000, 1, 0x10);
    Goes(0x13, 0x10, 1, 0x1b0);
    Goes(0x27, 0x1b0, 0, 0x3b6e0);
    Goes(0x4e, 0x3b6e0, 1, 0x1db485);
    Goes(0x9d, 0x1db485, 1, 0xef3d5f);
    Goes(0x13b, 0xef3d5f, 0, 0xc7ff8a);
    Goes(0x276, 0xc7ff8a, 0, 0x98127f);
  }

  /** 1/13 of it does not. */
  lemma Thirteenth()
    ensures Power(0x13b13b) == 0x13f7c0
  {
    hide Power;
    ThirteenthBegins();
    Goes(0x4ec, 0x98127f, 0, 0xd3802);
    Goes(0x9d8, 0xd3802, 1, 0xd85103);
    Goes(0x13b1, 0xd85103, 0, 0x23e02c);
    Goes(0x2762, 0x23e02c, 0, 0x807c6);
    Goes(0x4ec4, 0x807c6, 1, 0xa8471d);
    Goes(0x9d89, 0xa8471d, 1, 0xad31d6);
    Goes(0x13b13, 0xad31d6, 1, 0xf197a8);
    Goes(0x27627, 0xf197a8, 0, 0x9237da);
    Goes(0x4ec4e, 0x9237da, 1, 0xe902df);
    Goes(0x9d89d, 0xe902df, 1, 0x13f7c0);
  }

  lemma SeventeenthBegins()
    ensures Power(0x787) == 0xa018ec
  {
    hide Power;
    First();
    Goes(0x1, 0x400000, 1, 0x100000);
    Goes(0x3, 0x100000, 1, 0x10000);
    Goes(0x7, 0x10000, 1, 0x100);
    Goes(0xf, 0x100, 0, 0x36000);
    Goes(0x1e, 0x36000, 0, 0xa28);
    Goes(0x3c, 0xa28, 0, 0xd58d58);
    Goes(0x78, 0xd58d58, 0, 0x4f7738);
    Goes(0xf0, 0x4f7738, 1, 0xc2209);
    Goes(0x1e1, 0xc2209, 1, 0xf39069);
    Goes(0x3c3, 0xf39069, 1, 0xa018ec);
  }

  /** 1/17 of it does not. */
  lemma Seventeenth()
    ensures Power(0xf0f0f) == 0x5d1147
  {
    hide Power;
    SeventeenthBegins();
    Goes(0x787, 0xa018ec, 1, 0x2871b6);
    Goes(0xf0f, 0x2871b6, 0, 0xd336f1);
    Goes(0x1e1e, 0xd336f1, 0, 0xc36ae9);
    Goes(0x3c3c, 0xc36ae9, 0, 0x2f6973);
    Goes(0x7878, 0x2f6973, 0, 0x51f2c6);
    Goes(0xf0f0, 0x51f2c6, 1, 0xa3b648);
    Goes(0x1e1e1, 0xa3b648, 1, 0x59de29);
    Goes(0x3c3c3, 0x59de29, 1, 0x9587fc);
    Goes(0x78787, 0x9587fc, 1, 0x5d1147);
  }

  lemma LastPartBegins()
    ensures Power(0x10f) == 0x5b7baa
  {
    hide Power;
    First();
    Goes(0x1, 0x400000, 0, 0x200000);
    Goes(0x2, 0x200000, 0, 0x80000);
    Goes(0x4, 0x80000, 0, 0x8000);
    Goes(0x8, 0x8000, 0, 0x80);
    Goes(0x10, 0x80, 1, 0x6c00);
    Goes(0x21, 0x6c00, 1, 0x770014);
    Goes(0x43, 0x770014, 1, 0x1514ab);
    Goes(0x87, 0x1514ab, 1, 0x5b7baa);
  }

  /** 1/241 of it does not. */
  lemma LastPart()
    ensures Power(0x10fef) == 0x5e700d
  {
    hide Power;
    LastPartBegins();
    Goes(0x10f, 0x5b7baa, 1, 0xce5fbf);
    Goes(0x21f, 0xce5fbf, 1, 0x614f11);
    Goes(0x43f, 0x614f11, 1, 0x9170a1);
    Goes(0x87f, 0x9170a1, 0, 0xd8d7a9);
    Goes(0x10fe, 0xd8d7a9, 1, 0xb85afc);
    Goes(0x21fd, 0xb85afc, 1, 0x2ff016);
    Goes(0x43fb, 0x2ff016, 1, 0xb054f8);
    Goes(0x87f7, 0xb054f8, 1, 0x5e700d);
  }

  // No shorter cycle

  lemma {:induction false} IterateAdds(seed: bv32, m: nat, n: nat)
    requires InRange(seed)
    ensures Iterate(Iterate(seed, m), n) == Iterate(seed, m + n)
  {
    if n > 0 {
      hide Step, InRange;
      IterateAdds(seed, m, n - 1);
    }
  }

  lemma {:induction false} ReturnsAgain(n: nat, k: nat)
    requires Power(n) == ONE
    ensures Power(n * k) == ONE
  {
    if k > 0 {
      hide Step;
      ReturnsAgain(n, k - 1);
      IterateAdds(ONE, n * (k - 1), n);
      assert n * (k - 1) + n == n * k;
    }
  }

  /** The first return divides every return. */
  lemma FirstReturnDivides(n: nat, m: nat)
    requires n > 0 && NeverBack(ONE, n - 1) && Power(n) == ONE && Power(m) == ONE
    ensures m % n == 0
  {
    hide Step;
    ReturnsAgain(n, m / n);
    IterateAdds(ONE, n * (m / n), m % n);
    assert m == n * (m / n) + m % n;
    assert Power(m % n) == ONE;
  }

  /** A prime that divides a product divides a factor: `s` inverts the remainder of the other. */
  lemma Cofactor(q: int, m: int, n: int, p: int, k: int, a: int, s: int, t: int)
    requires m * n == q * p && m == q * k + a && s * a == q * t + 1
    ensures n == q * (s * (p - k * n) - t * n)
  {
    assert a * n == q * (p - k * n) by {
      assert (q * k + a) * n == q * (k * n) + a * n;
    }
    assert n == (s * a) * n - (q * t) * n;
    assert (s * a) * n == s * (a * n) == s * (q * (p - k * n)) == q * (s * (p - k * n));
    assert (q * t) * n == q * (t * n);
  }

  const INVERSES_3: seq<nat> := [0, 1, 2]
  const INVERSES_5: seq<nat> := [0, 1, 3, 2, 4]
  const INVERSES_7: seq<nat> := [0, 1, 4, 5, 2, 3, 6]
  const INVERSES_13: seq<nat> := [0, 1, 7, 9, 10, 8, 11, 2, 5, 3, 4, 6, 12]
  const INVERSES_17: seq<nat> := [0, 1, 9, 6, 13, 7, 3, 5, 15, 2, 12, 14, 10, 4, 11, 8, 16]

  function Inverses(q: nat): seq<nat> {
    match q
    case 3 => INVERSES_3
    case 5 => INVERSES_5
    case 7 => INVERSES_7
    case 13 => INVERSES_13
    case _ => INVERSES_17
  }

  predicate SmallPrime(q: nat) {
    q == 3 || q == 5 || q == 7 || q == 13 || q == 17
  }

  lemma InversesInvert(q: nat, a: nat)
    requires SmallPrime(q) && 0 < a < q
    ensures a < |Inverses(q)| && (Inverses(q)[a] * a) % q == 1
  {
    match a
    case 1 => case 2 => case 3 => case 4 => case 5 => case 6 => case 7 => case 8 =>
    case 9 => case 10 => case 11 => case 12 => case 13 => case 14 => case 15 => case 16 =>
    case _ => assert false;
  }

  lemma Euclid(q: nat, m: nat, n: nat, p: nat) returns (j: int)
    requires SmallPrime(q) && m * n == q * p && m % q != 0
    ensures n == q * j
  {
    InversesInvert(q, m % q);
    hide Inverses, SmallPrime;
    var s := Inverses(q)[m % q];
    Cofactor(q, m, n, p, m / q, m % q, s, s * (m % q) / q);
    j := s * (p - m / q * n) - s * (m % q) / q * n;
  }

  lemma Divided(q: nat, m: nat, n: nat, p: nat) returns (j: nat)
    requires SmallPrime(q) && m * n == q * p && p > 0 && m % q != 0
    ensures m * j == p
  {
    var i := Euclid(q, m, n, p);
    assert n > 0 by { assert n == 0 ==> m * n == 0; }
    j := i;
    assert m * (q * j) == q * (m * j);
  }

  /** 2^24 - 1 is 3 * 3 * 5 * 7 * 13 * 17 * 241. */
  lemma SomePrimeDivides(m: nat, n: nat)
    requires m * n == CYCLE && m > 1
    ensures m % 3 == 0 || m % 5 == 0 || m % 7 == 0 || m % 13 == 0 || m % 17 == 0 || m % 241 == 0
  {
    if m % 3 != 0 && m % 5 != 0 && m % 7 != 0 && m % 13 != 0 && m % 17 != 0 {
      var j := Divided(3, m, n, 5592405);
      j := Divided(3, m, j, 1864135);
      j := Divided(5, m, j, 372827);
      j := Divided(7, m, j, 53261);
      j := Divided(13, m, j, 4097);
      j := Divided(17, m, j, 241);
      LastFactor(m, j);
    }
  }

  lemma LastFactor(m: nat, n: nat)
    requires m * n == 241 && m > 1
    ensures m == 241
  {
    if m > 15 && n > 15 {
      Product(m, n);
    } else if m <= 15 {
      SmallFactor(m, n);
    } else {
      SmallFactor(n, m);
    }
  }

  lemma Product(m: nat, n: nat)
    requires m > 15 && n > 15
    ensures m * n >= 256
  {
    assert m * n == (m - 16) * n + 16 * n;
    assert (m - 16) * n >= 0;
  }

  lemma SmallFactor(m: nat, n: nat)
    requires m * n == 241 && m <= 15
    ensures m == 1
  {
  }

  lemma PartReturns(n: nat, m: nat, q: nat, p: nat)
    requires Power(n) == ONE && m * n == CYCLE && q > 0 && m % q == 0 && q * p == CYCLE
    ensures Power(p) == ONE
  {
    ReturnsAgain(n, m / q);
    assert m == q * (m / q);
    assert q * (m / q) * n == q * (n * (m / q));
    Cancel(q, n * (m / q), p);
  }

  lemma Cancel(q: nat, k: nat, p: nat)
    requires q > 0 && q * k == q * p
    ensures k == p
  {
    Grows(q, k, p);
    Grows(q, p, k);
  }

  lemma Grows(q: nat, k: nat, p: nat)
    requires q > 0
    ensures k < p ==> q * k < q * p
  {
    if k < p {
      assert q * p == q * k + q * (p - k);
    }
  }

  /** No power of x before the whole cycle is 1 again. */
  lemma {:induction false} OneNeverBack(n: nat)
    requires n < CYCLE
    ensures NeverBack(ONE, n)
  {
    if n > 0 {
      OneNeverBack(n - 1);
      if Power(n) == ONE {
        hide Power;
        WholeCycle();
        FirstReturnDivides(n, CYCLE);
        NoPartReturns(n, CYCLE / n);
      }
    }
  }

  lemma NoPartReturns(n: nat, m: nat)
    requires m * n == CYCLE && m > 1
    ensures Power(n) != ONE
  {
    hide Power;
    if Power(n) == ONE {
      SomePrimeDivides(m, n);
      Third();
      Fifth();
      Seventh();
      Thirteenth();
      Seventeenth();
      LastPart();
      if m % 3 == 0 {
        PartReturns(n, m, 3, 0x555555);
      } else if m % 5 == 0 {
        PartReturns(n, m, 5, 0x333333);
      } else if m % 7 == 0 {
        PartReturns(n, m, 7, 0x249249);
      } else if m % 13 == 0 {
        PartReturns(n, m, 13, 0x13b13b);
      } else if m % 17 == 0 {
        PartReturns(n, m, 17, 0xf0f0f);
      } else {
        PartReturns(n, m, 241, 0x10fef);
      }
    }
  }

  /** The powers of x are all values. */
  lemma EveryValueIsAPower(l: bv32) returns (k: nat)
    requires InRange(l)
    ensures k < CYCLE && Power(k) == l
  {
    OneNeverBack(CYCLE - 1);
    hide InRange, Iterate, States, UpTo, Value, NeverBack, IsState;
    StatesDiffer(ONE, CYCLE - 1, CYCLE - 1);
    StatesInRange(ONE, CYCLE - 1);
    SameSize(States(ONE, CYCLE - 1), UpTo(CYCLE));
    ValueInRange(l);
    assert IsState(ONE, CYCLE - 1, Value(l));
    k := StateAt(ONE, CYCLE - 1, l);
  }

  lemma StateAt(seed: bv32, n: nat, l: bv32) returns (k: nat)
    requires InRange(seed) && IsState(seed, n, Value(l))
    ensures k <= n && Iterate(seed, k) == l
  {
    k :| k <= n && Value(l) == Value(Iterate(seed, k));
    SameValue(Iterate(seed, k), l);
  }

  lemma StatesInRange(seed: bv32, n: nat)
    requires InRange(seed) && forall v | v in States(seed, n) :: IsState(seed, n, v)
    ensures States(seed, n) <= UpTo(CYCLE)
  {
    hide InRange, Iterate, States, UpTo, Value;
    forall v | v in States(seed, n)
      ensures v in UpTo(CYCLE)
    {
      assert IsState(seed, n, v);
      var k: nat :| k <= n && v == Value(Iterate(seed, k));
      ValueInRange(Iterate(seed, k));
    }
  }

  lemma SameSize(a: set<nat>, b: set<nat>)
    requires a <= b && |a| == |b|
    ensures a == b
  {
    if a != b {
      var x :| x in b && x !in a;
      SubsetSize(a, b - {x});
    }
  }

  /** For every seed the register comes back exactly after all 2^24 - 1 nonzero values, so the assertion
      fires exactly at the call after 2^24 - 2 indexes. */
  lemma NeverBackIff(seed: bv32, n: nat)
    requires InRange(seed)
    ensures NeverBack(seed, n) <==> n < CYCLE
    ensures Iterate(seed, CYCLE) == seed
  {
    var k := EveryValueIsAPower(seed);
    WholeCycle();
    IterateAdds(ONE, CYCLE, k);
    IterateAdds(ONE, k, CYCLE);
    OneNeverBack(CYCLE - 1);
    hide Iterate, InRange;
    if n < CYCLE {
      forall j | 1 <= j <= n
        ensures Iterate(seed, j) != seed
      {
        if Iterate(seed, j) == seed {
          IterateAdds(ONE, k, j);
          EqualStatesMeetSeed(ONE, k, k + j);
        }
      }
    } else {
      assert Iterate(seed, CYCLE) == seed;
    }
  }
}

/** The generator object of protocol/boringtun/src/device/mod.rs. */
module IndexLfsr {
  import opened Wrappers
  import opened LfsrSpec
  import opened LfsrCycle

  class IndexLfsr {
    const initial: bv32
    var lfsr: bv32
    const mask: bv32
    ghost var calls: nat

    ghost predicate Valid()
      reads this
    {
      && InRange(initial) && mask < 0x100_0000
      && lfsr == Iterate(initial, calls) && NeverBack(initial, calls)
    }

    /** The indexes given out. */
    ghost function Issued(): (s: set<nat>)
      requires Valid()
      reads this
    {
      set k | 0 <= k < calls :: Output(Iterate(initial, k), mask)
    }

    constructor (seed: bv32, mask: bv32)
      requires InRange(seed) && InRange(mask)
      ensures Valid() && Issued() == {}
    {
      this.initial, this.lfsr, this.mask := seed, seed, mask;
      this.calls := 0;
    }

    /** No value when the assertion "Too many peers created" fires. */
    method Next() returns (index: Option<nat>)
      requires Valid()
      modifies this
      ensures index.Some? ==> Valid() && index.value < LIMIT
      ensures index.Some? ==> index.value !in old(Issued()) && Issued() == old(Issued()) + {index.value}
      ensures index.None? <==> old(calls) == CYCLE - 1
      ensures calls == old(calls) + 1
    {
      hide InRange, Output, Step;
      ghost var n := calls;
      NeverBackIff(initial, n);
      NeverBackIff(initial, n + 1);
      var value := Output(lfsr, mask);
      lfsr := Step(lfsr);
      calls := calls + 1;
      assert lfsr == Iterate(initial, n + 1);
      if lfsr == initial {
        return None;
      }
      index := Some(value);
      forall k: nat | k < n
        ensures Output(Iterate(initial, k), mask) != value
      {
        IndexesAreDistinct(initial, mask, n + 1, k, n);
      }
    }
  }
}
