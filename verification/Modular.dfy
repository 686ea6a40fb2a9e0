/** Ring positions: the residue of an unbounded counter, and how residues move. */
module Modular {

  /** One more than the largest 32-bit number. */
  const WORD := 0x1_0000_0000

  /** The ring position of counter value `x` in a ring of `n` slots. Written by subtraction
      so that proofs about it stay linear; `WrapIsMod` ties it to `%`. */
  function Wrap(x: nat, n: nat): (r: nat)
    requires n > 0
    ensures r < n
    decreases x
  {
    if x < n then x else Wrap(x - n, n)
  }

  lemma {:induction false} WrapIsMod(x: nat, n: nat)
    requires n > 0
    ensures Wrap(x, n) == x % n
  {
    if x < n {
      ModUnique(x, 0, x, n);
    } else {
      WrapIsMod(x - n, n);
      var q, r := (x - n) / n, (x - n) % n;
      assert (q + 1) * n + r == x;
      ModUnique(x, q + 1, r, n);
    }
  }

  /** Quotient and remainder are unique. */
  lemma ModUnique(x: int, q: int, r: int, n: int)
    requires n > 0 && 0 <= r < n && x == q * n + r
    ensures x / n == q && x % n == r
  {
    var q', r' := x / n, x % n;
    assert (q - q') * n == r' - r;
    if q != q' {
      NonzeroMultiple(q - q', n);
    }
  }

  /** A nonzero multiple of `n` is at least `n` away from zero. */
  lemma NonzeroMultiple(k: int, n: int)
    requires k != 0 && n > 0
    ensures k * n >= n || k * n <= -n
  {
    if k > 0 {
      assert (k - 1) * n >= 0;
    } else {
      assert (-k - 1) * n >= 0;
    }
  }

  /** Advancing a counter by less than one lap advances its position, wrapping at most once. */
  lemma {:induction false} WrapAdd(x: nat, d: nat, n: nat)
    requires n > 0 && d <= n
    ensures Wrap(x + d, n) == if Wrap(x, n) + d < n then Wrap(x, n) + d else Wrap(x, n) + d - n
    decreases x
  {
    if x >= n {
      WrapAdd(x - n, d, n);
    } else {
      assert x + d >= n ==> Wrap(x + d, n) == Wrap(x + d - n, n);
    }
  }

  /** The C expression `a % n` for a value that is less than two laps. */
  lemma SmallMod(a: nat, n: nat)
    requires n > 0 && a < 2 * n
    ensures a % n == if a < n then a else a - n
  {
    if a < n {
      ModUnique(a, 0, a, n);
    } else {
      ModUnique(a, 1, a - n, n);
    }
  }

  /** The position after the next one, as the code computes it. */
  lemma NextPosition(x: nat, n: nat)
    requires n > 0
    ensures (Wrap(x, n) + 1) % n == Wrap(x + 1, n)
  {
    WrapAdd(x, 1, n);
    SmallMod(Wrap(x, n) + 1, n);
  }

  /** Two counters less than one lap apart share a position only when they are equal. */
  lemma WrapInjective(x: nat, y: nat, n: nat)
    requires n > 0 && x < y + n && y < x + n
    ensures Wrap(x, n) == Wrap(y, n) <==> x == y
  {
    if x < y {
      WrapAdd(x, y - x, n);
    } else {
      WrapAdd(y, x - y, n);
    }
  }

  lemma {:induction false} MulMonotone(x: nat, y: nat, z: nat)
    requires x <= y
    ensures x * z <= y * z
  {
    if x < y {
      MulMonotone(x, y - 1, z);
      assert y * z == (y - 1) * z + z;
    }
  }

  // ------------------------------------------------------ powers of two

  function Pow2(k: nat): (r: nat)
    ensures r >= 1
  {
    if k == 0 then 1 else 2 * Pow2(k - 1)
  }

  lemma {:induction false} Pow2Monotone(j: nat, k: nat)
    requires j <= k
    ensures Pow2(j) <= Pow2(k)
  {
    if j < k {
      Pow2Monotone(j, k - 1);
    }
  }

  lemma Pow2Thirty()
    ensures Pow2(30) == 0x4000_0000
  {
    assert Pow2(10) == 1024;
    assert Pow2(20) == 1024 * 1024;
  }

  lemma {:induction false} Pow2Add(j: nat, k: nat)
    ensures Pow2(j) * Pow2(k) == Pow2(j + k)
  {
    if j > 0 {
      Pow2Add(j - 1, k);
      DoubleFirst(Pow2(j - 1), Pow2(k));
    }
  }

  lemma DoubleFirst(x: nat, y: nat)
    ensures 2 * x * y == 2 * (x * y)
  {
  }
}
