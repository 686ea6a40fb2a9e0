/** How long the blocks of `CObjectPool2` get: doubling in 32 bits, up to a maximum. */
module BlockSizes {
  import opened Modular

  const HALF := 0x8000_0000

  /** The length of the block after one of length `b`. */
  function Grown(b: nat, max: nat): nat {
    if b < max then (2 * b) % WORD else b
  }

  /** The length `k` blocks later. */
  function SizeAfter(b: nat, max: nat, k: nat): nat
    decreases k
  {
    if k == 0 then b else SizeAfter(Grown(b, max), max, k - 1)
  }

  lemma {:induction false} GrownAfter(b: nat, max: nat, k: nat)
    ensures SizeAfter(b, max, k + 1) == Grown(SizeAfter(b, max, k), max)
    decreases k
  {
    if k == 0 {
      assert SizeAfter(b, max, 1) == SizeAfter(Grown(b, max), max, 0);
    } else {
      GrownAfter(Grown(b, max), max, k - 1);
    }
  }

  // ---------------------------------------------------------- empty blocks

  /** `b` doubled `j` times in 32 bits, without a maximum. */
  function Shl(b: nat, j: nat): nat {
    if j == 0 then b else (2 * Shl(b, j - 1)) % WORD
  }

  /** Some doubling, before the word runs empty, reaches the maximum. */
  predicate Stops(b: nat, max: nat) {
    exists j: nat :: j < 32 && Shl(b, j) >= max
  }

  lemma {:induction false} ShlFront(b: nat, j: nat)
    ensures Shl((2 * b) % WORD, j) == Shl(b, j + 1)
  {
    if j == 0 {
      assert Shl(b, 1) == (2 * Shl(b, 0)) % WORD;
    } else {
      ShlFront(b, j - 1);
    }
  }

  lemma {:induction false} ShlZero(j: nat)
    ensures Shl(0, j) == 0
  {
    if j > 0 {
      ShlZero(j - 1);
    }
  }

  /** Once the maximum is reached the length stays. */
  lemma {:induction false} SizeStays(b: nat, max: nat, k: nat)
    requires b >= max
    ensures SizeAfter(b, max, k) == b
  {
    if k > 0 {
      SizeStays(b, max, k - 1);
    }
  }

  /** The next length is not 0 when a doubling of it reaches a maximum above `b`. */
  lemma NextPositive(b: nat, max: nat, j: nat)
    requires 0 < b < max && Shl(b, j) >= max
    ensures j > 0 && 0 < Grown(b, max) && Shl(Grown(b, max), j - 1) >= max
  {
    assert Shl(b, 0) == b;
    ShlFront(b, j - 1);
    ShlZero(j - 1);
  }

  lemma {:induction false} StopsPositive(b: nat, max: nat, j: nat, k: nat)
    requires 0 < b && Shl(b, j) >= max
    ensures SizeAfter(b, max, k) > 0
    decreases k
  {
    if b >= max {
      SizeStays(b, max, k);
    } else if k > 0 {
      NextPositive(b, max, j);
      StopsPositive(Grown(b, max), max, j - 1, k - 1);
    }
  }

  /** Doubling a multiple in 32 bits. */
  lemma DoubleMultiple(v: nat, p: nat, r: nat)
    requires p > 0 && v % p == 0 && WORD == 2 * p * r
    ensures ((2 * v) % WORD) % (2 * p) == 0
  {
    var m, q, w := v / p, (2 * v) / WORD, (2 * v) % WORD;
    assert v == p * m;
    assert 2 * v == q * WORD + w;
    assert w == 2 * p * m - q * (2 * p * r);
    Factor(p, m, q, r);
    ModUnique(w, m - q * r, 0, 2 * p);
  }

  lemma Factor(p: int, m: int, q: int, r: int)
    ensures 2 * p * m - q * (2 * p * r) == (m - q * r) * (2 * p)
  {
  }

  lemma {:induction false} ShlMultiple(b: nat, j: nat)
    requires j <= 32
    ensures Shl(b, j) % Pow2(j) == 0
  {
    if j > 0 {
      ShlMultiple(b, j - 1);
      WordIsPower(j - 1);
      DoubleMultiple(Shl(b, j - 1), Pow2(j - 1), Pow2(32 - j));
    }
  }

  lemma WordIsPower(j: nat)
    requires j < 32
    ensures WORD == 2 * Pow2(j) * Pow2(31 - j)
  {
    var p, q := Pow2(j), Pow2(31 - j);
    Pow2Add(j, 31 - j);
    WordTwice();
    DoubleFirst(p, q);
  }

  lemma WordTwice()
    ensures WORD == 2 * Pow2(31) == Pow2(32)
  {
    Pow2Thirty();
    assert Pow2(31) == 2 * Pow2(30);
    assert Pow2(32) == 2 * Pow2(31);
  }

  /** After 32 doublings nothing is left of the word. */
  lemma ShlEnds(b: nat)
    ensures Shl(b, 32) == 0
  {
    ShlMultiple(b, 32);
    WordTwice();
    var v := Shl(b, 31);
    assert Shl(b, 32) == (2 * v) % WORD;
    SmallMod(Shl(b, 32), WORD);
  }

  lemma {:induction false} SizeIsShl(b: nat, max: nat, i: nat)
    requires i <= 32 && !Stops(b, max)
    ensures SizeAfter(b, max, i) == Shl(b, i)
  {
    if i > 0 {
      SizeIsShl(b, max, i - 1);
      GrownAfter(b, max, i - 1);
      assert Shl(b, i - 1) < max;
    }
  }

  /** No block is ever empty exactly when one of the first 32 doublings reaches the maximum. */
  lemma NeverEmptyIff(b: nat, max: nat)
    requires b > 0
    ensures (forall k: nat :: SizeAfter(b, max, k) > 0) <==> Stops(b, max)
  {
    if Stops(b, max) {
      var j: nat :| j < 32 && Shl(b, j) >= max;
      forall k: nat ensures SizeAfter(b, max, k) > 0 {
        StopsPositive(b, max, j, k);
      }
    } else {
      SizeIsShl(b, max, 32);
      ShlEnds(b);
      assert SizeAfter(b, max, 32) == 0;
    }
  }

  /** The condition carries over to the next block. */
  lemma StopsOn(b: nat, max: nat)
    requires 0 < b < WORD && Stops(b, max)
    ensures 0 < Grown(b, max) < WORD && Stops(Grown(b, max), max)
  {
    if b < max {
      var j: nat :| j < 32 && Shl(b, j) >= max;
      NextPositive(b, max, j);
    }
  }

  // ------------------------------------------------------ shrinking blocks

  /** The first of `b` and its doublings that is 2^31 or more. */
  function Top(b: nat): (t: nat)
    requires 0 < b < WORD
    ensures HALF <= t < WORD && b <= t
    decreases WORD - b
  {
    if b >= HALF then b else Top(2 * b)
  }

  /** Doubling stops before it leaves 32 bits. */
  predicate Fits(b: nat, max: nat) {
    0 < b < WORD && (max <= HALF || Top(b) >= max)
  }

  lemma FitsOn(b: nat, max: nat)
    requires Fits(b, max)
    ensures b <= Grown(b, max) <= 2 * b && Fits(Grown(b, max), max)
  {
  }

  lemma {:induction false} NeverShrinks(b: nat, max: nat, k: nat)
    requires Fits(b, max)
    ensures SizeAfter(b, max, k + 1) >= SizeAfter(b, max, k) > 0
    decreases k
  {
    FitsOn(b, max);
    if k > 0 {
      NeverShrinks(Grown(b, max), max, k - 1);
    } else {
      assert SizeAfter(b, max, 1) == SizeAfter(Grown(b, max), max, 0);
    }
  }

  lemma Doubled(b: nat, max: nat)
    requires b < max && 2 * b < WORD
    ensures Grown(b, max) == 2 * b
  {
  }

  lemma {:induction false} Shrinks(b: nat, max: nat) returns (k: nat)
    requires 0 < b < WORD && !Fits(b, max)
    ensures SizeAfter(b, max, k + 1) < SizeAfter(b, max, k)
    decreases WORD - b
  {
    if b >= HALF {
      k := 0;
      assert SizeAfter(b, max, 1) == SizeAfter(Grown(b, max), max, 0);
    } else {
      Doubled(b, max);
      k := Shrinks(2 * b, max);
      k := k + 1;
    }
  }

  /** No block is shorter than the one before exactly when doubling stops in time: the maximum is at most 2^31,
      or the last doubling that 32 bits hold reaches it. */
  lemma NeverShrinksIff(b: nat, max: nat)
    requires 0 < b < WORD
    ensures (forall k: nat :: SizeAfter(b, max, k + 1) >= SizeAfter(b, max, k)) <==> Fits(b, max)
  {
    if Fits(b, max) {
      forall k: nat ensures SizeAfter(b, max, k + 1) >= SizeAfter(b, max, k) {
        NeverShrinks(b, max, k);
      }
    } else {
      var k := Shrinks(b, max);
    }
  }

  /** Blocks that never shrink are never empty. */
  lemma FitsStops(b: nat, max: nat)
    requires Fits(b, max)
    ensures Stops(b, max)
  {
    forall k: nat ensures SizeAfter(b, max, k) > 0 {
      NeverShrinks(b, max, k);
    }
    NeverEmptyIff(b, max);
  }

  /** The converse fails: these blocks shrink at once and are never empty. */
  lemma ShrinkingNotEmpty()
    ensures !Fits(0xBFFF_FFFF, 0xC000_0000) && Stops(0xBFFF_FFFF, 0xC000_0000)
  {
    assert Shl(0xBFFF_FFFF, 2) == 0xFFFF_FFFC;
  }

  /** A length need not be a power of two for a block to be empty. */
  lemma EmptyExample()
    ensures SizeAfter(0xC000_0000, 0xC000_0001, 2) == 0
  {
    GrownAfter(0xC000_0000, 0xC000_0001, 0);
    GrownAfter(0xC000_0000, 0xC000_0001, 1);
  }
}
