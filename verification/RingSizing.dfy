/** How `InitRing` and `StartWork` size the ring from the block memory. */
module RingSizing {
  import opened Modular
  import opened RingTypes
  import opened RingGeometry

  /** The value divided `k` times by two is `remain`. */
  ghost predicate Halved(value: nat, remain: nat, k: nat) {
    remain * Pow2(k) <= value < (remain + 1) * Pow2(k)
  }

  /** The whole-number logarithm: between which powers of two the value lies. */
  method Log2(value: nat) returns (count: nat)
    ensures value >= 1 ==> Pow2(count) <= value < Pow2(count + 1)
    ensures value == 0 ==> count == 0
  {
    count := 0;
    var remain: nat := value / 2;
    assert Halved(value, remain, 1);
    while remain != 0
      invariant Halved(value, remain, count + 1)
      invariant value >= 1 ==> Pow2(count) <= value
      invariant value == 0 ==> remain == 0 && count == 0
      decreases remain
    {
      HalveAgain(value, remain, count + 1);
      count := count + 1;
      remain := remain / 2;
    }
  }

  lemma HalveAgain(value: nat, remain: nat, k: nat)
    requires remain >= 1 && Halved(value, remain, k)
    ensures Halved(value, remain / 2, k + 1) && Pow2(k) <= value && value >= 1
  {
    var h, p := remain / 2, Pow2(k);
    Regroup(h, p);
    Regroup(h + 1, p);
    MulMonotone(2 * h, remain, p);
    MulMonotone(remain + 1, 2 * h + 2, p);
    MulMonotone(1, remain, p);
  }

  lemma Regroup(x: nat, y: nat)
    ensures (2 * x) * y == x * (2 * y)
  {
  }

  /** The signed 32-bit value of the C expression `2 << n`. */
  function ShiftedTwo(n: nat): int {
    var r := (2 * Pow2(n)) % 0x1_0000_0000;
    if r < 0x8000_0000 then r else r - 0x1_0000_0000
  }

  lemma ShiftFits(n: nat)
    ensures n < 30 ==> ShiftedTwo(n) == Pow2(n + 1)
    ensures n >= 30 ==> ShiftedTwo(n) < Pow2(n + 1)
  {
    Pow2Thirty();
    if n < 30 {
      Pow2Monotone(n + 1, 30);
    } else {
      Pow2Monotone(31, n + 1);
      assert Pow2(31) == 0x8000_0000;
    }
  }

  const AVERAGE_PACKET_SIZE := 100
  const DEF_METABLOCK_CAPACITY := 10000

  /** The sizing `InitRing` stores in the shared memory. From 2^30 average packets on the signed shift
      overflows. The number of metas is the power of two with exponent `k`. */
  method SizeRing(blockSize: nat, metaBlkCapacity: nat, modCount: nat) returns (cfg: Config, ghost k: nat)
    requires modCount >= 1 && blockSize / AVERAGE_PACKET_SIZE < 0x4000_0000
    ensures Sized(cfg) && cfg.modCount == modCount
    ensures 1 <= k <= 30 && cfg.metaTotal == Pow2(k) && cfg.blkCount <= 0x4000_0000
    ensures blockSize < AVERAGE_PACKET_SIZE ==> cfg.metaTotal == 2
    ensures blockSize >= AVERAGE_PACKET_SIZE ==>
      blockSize / AVERAGE_PACKET_SIZE < cfg.metaTotal <= 2 * (blockSize / AVERAGE_PACKET_SIZE)
    ensures cfg.metaTotal % 8 == 0 <==> blockSize / AVERAGE_PACKET_SIZE >= 4
    ensures cfg.capacity == if metaBlkCapacity == 0 then DEF_METABLOCK_CAPACITY else metaBlkCapacity
  {
    var metaCount: nat;
    metaCount, k := MetaCount(blockSize / AVERAGE_PACKET_SIZE);
    var capacity := DEF_METABLOCK_CAPACITY;
    if metaBlkCapacity != 0 {
      capacity := metaBlkCapacity;
    }
    FewBlocks(metaCount, k, capacity);
    cfg := Config((metaCount - 1) / capacity + 1, modCount, capacity, metaCount);
  }

  lemma FewBlocks(metaCount: nat, k: nat, capacity: nat)
    requires 1 <= k <= 30 && metaCount == Pow2(k) && capacity >= 1
    ensures (metaCount - 1) / capacity + 1 <= 0x4000_0000
  {
    Pow2Thirty();
    Pow2Monotone(k, 30);
    QuotientBelow(metaCount - 1, capacity);
  }

  lemma QuotientBelow(x: nat, d: nat)
    requires d >= 1
    ensures x / d <= x
  {
    var q := x / d;
    DivFloor(x, d);
    MulMonotone(1, d, q);
  }

  /** The number of metas for a block memory of `v` average packets. */
  method MetaCount(v: nat) returns (metaCount: nat, ghost k: nat)
    requires v < 0x4000_0000
    ensures metaCount >= 2 && 1 <= k <= 30 && metaCount == Pow2(k)
    ensures if v == 0 then metaCount == 2 else v < metaCount <= 2 * v
    ensures metaCount % 8 == 0 <==> v >= 4
  {
    var size2 := Log2(v);
    k := TotalFits(v, size2);
    StartWorkAssertIff(v, size2);
    metaCount := ShiftedTwo(size2);
  }

  lemma TotalFits(v: nat, n: nat) returns (k: nat)
    requires v < 0x4000_0000 && (v >= 1 ==> Pow2(n) <= v < Pow2(n + 1)) && (v == 0 ==> n == 0)
    ensures ShiftedTwo(n) >= 2 && 1 <= k <= 30 && ShiftedTwo(n) == Pow2(k)
    ensures v == 0 ==> ShiftedTwo(n) == 2
    ensures v >= 1 ==> v < ShiftedTwo(n) <= 2 * v
  {
    Pow2Thirty();
    if v >= 1 {
      ShiftBounds(v, n);
    } else {
      ShiftFits(n);
    }
    k := n + 1;
  }

  lemma ShiftBounds(v: nat, n: nat)
    requires 1 <= v < Pow2(30) && Pow2(n) <= v < Pow2(n + 1)
    ensures n < 30 && v < ShiftedTwo(n) <= 2 * v
    ensures ShiftedTwo(n) == Pow2(n + 1)
  {
    ShiftFits(n);
    if n >= 30 {
      Pow2Monotone(30, n);
    }
  }

  /** The ring has the three blocks it needs exactly when its metas fill two whole blocks and one more
      fits before the last index. */
  lemma ThreeBlocksIff(cfg: Config)
    requires Sized(cfg)
    ensures cfg.blkCount >= 3 <==> cfg.metaTotal - 1 >= 2 * cfg.capacity
  {
    var m, c := cfg.metaTotal - 1, cfg.capacity;
    DivFloor(m, c);
    var q := m / c;
    if q >= 2 {
      MulMonotone(2, q, c);
    } else {
      MulMonotone(q, 1, c);
    }
  }

  // -------------------------------------------------------------- masking

  /** Bitwise and of two unsigned numbers. */
  function And(x: nat, y: nat): nat {
    if x == 0 || y == 0 then 0 else (if x % 2 == 1 && y % 2 == 1 then 1 else 0) + 2 * And(x / 2, y / 2)
  }

  /** Masking with `g_metaCount`, one less than a power of two, is the remainder. */
  lemma {:induction false} MaskIsMod(x: nat, k: nat)
    ensures And(x, Pow2(k) - 1) == x % Pow2(k)
  {
    if k > 0 {
      var p := Pow2(k - 1);
      if x > 0 {
        MaskIsMod(x / 2, k - 1);
      }
      HalfMod(x, p);
      OddHalf(p);
      MaskStep(x, 2 * p - 1, p - 1, (x / 2) % p);
      if x == 0 {
        ModUnique(0, 0, 0, 2 * p);
      }
    }
  }

  /** One bit of a mask of ones. */
  lemma MaskStep(x: nat, y: nat, half: nat, m: nat)
    requires y % 2 == 1 && y / 2 == half && (x > 0 ==> And(x / 2, half) == m)
    ensures And(x, y) == if x == 0 then 0 else 2 * m + x % 2
  {
  }

  lemma OddHalf(p: nat)
    requires p > 0
    ensures (2 * p - 1) % 2 == 1 && (2 * p - 1) / 2 == p - 1
  {
  }

  /** The remainder modulo an even number, from the halves. */
  lemma HalfMod(x: nat, p: nat)
    requires p > 0
    ensures x % (2 * p) == 2 * ((x / 2) % p) + x % 2
  {
    var q, r := (x / 2) / p, (x / 2) % p;
    Regroup(q, p);
    ModUnique(x, q, 2 * r + x % 2, 2 * p);
  }

  // ------------------------------------------------------------ capacities

  /** The capacities of the first `k` blocks, added up. */
  function CapacitySum(cfg: Config, k: nat): int {
    if k == 0 then 0 else CapacitySum(cfg, k - 1) + Capacity(cfg, (k - 1) * cfg.capacity)
  }

  lemma {:induction false} WholeBlocks(cfg: Config, k: nat)
    requires Sized(cfg) && k < cfg.blkCount
    ensures CapacitySum(cfg, k) == k * cfg.capacity
  {
    if k > 0 {
      WholeBlocks(cfg, k - 1);
      OffsetBound(cfg, k);
      assert (k - 1) * cfg.capacity + cfg.capacity == k * cfg.capacity;
    }
  }

  /** Every meta but one belongs to exactly one block's capacity: all of them add up to `metaTotal - 1`. */
  lemma CapacitiesAddUp(cfg: Config)
    requires Sized(cfg)
    ensures CapacitySum(cfg, cfg.blkCount) == cfg.metaTotal - 1
  {
    var last := cfg.blkCount - 1;
    WholeBlocks(cfg, last);
    DivFloor(cfg.metaTotal - 1, cfg.capacity);
  }

  // ------------------------------------------------------------- StartWork

  /** `StartWork` computes `g_metaCount` back from the pool size, one less than the number of metas. */
  lemma MetaCountRecovered(metaTotal: nat, metaSize: nat)
    requires metaSize > 0
    ensures (metaTotal * metaSize) / metaSize - 1 == metaTotal - 1
  {
    ModUnique(metaTotal * metaSize, metaTotal, 0, metaSize);
  }

  /** `StartWork` asserts divisibility by `2 ^ 10`, which in C is the exclusive or of 2 and 10. For the total that
      `InitRing` computes from `v` average packets it holds exactly when there are at least four. */
  lemma StartWorkAssertIff(v: nat, n: nat)
    requires v < 0x4000_0000 && (v >= 1 ==> Pow2(n) <= v < Pow2(n + 1)) && (v == 0 ==> n == 0)
    ensures (2 as bv32) ^ (10 as bv32) == 8
    ensures ShiftedTwo(n) % 8 == 0 <==> v >= 4
  {
    Pow2Thirty();
    if v >= 1 {
      ShiftBounds(v, n);
    } else {
      ShiftFits(n);
    }
    EightDivides(v, n);
  }

  lemma EightDivides(v: nat, n: nat)
    requires (v >= 1 ==> Pow2(n) <= v < Pow2(n + 1)) && (v == 0 ==> n == 0)
    ensures Pow2(n + 1) % 8 == 0 <==> v >= 4
  {
    if n >= 2 {
      Pow2Monotone(2, n);
      assert Pow2(n + 1) == 8 * Pow2(n - 2);
    } else {
      Pow2Monotone(n + 1, 2);
    }
  }

  // -------------------------------------------------------------- Distance

  /** `Distance` of math_.cpp: the steps forward from one ring position to another. */
  function Distance(from: nat, to: nat, total: nat): nat
    requires from < total && to < total
  {
    (if to > from then to - from else to + total - from) % total
  }

  /** It is the one number of steps below a lap that leads from the first position to the second. */
  lemma DistanceExact(from: nat, to: nat, total: nat, d: nat)
    requires from < total && to < total && d < total
    ensures Distance(from, to, total) < total
    ensures (from + d) % total == to <==> d == Distance(from, to, total)
  {
    if to > from {
      SmallMod(to - from, total);
    } else {
      SmallMod(to + total - from, total);
    }
    SmallMod(from + d, total);
  }
}
