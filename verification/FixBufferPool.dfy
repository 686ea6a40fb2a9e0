/** The fixed-size block pool: an intrusive free list threaded through the blocks themselves. */
module FixBufferPool {
  import opened Modular

  /** What the pool's users see: the blocks it can hand out, next first, and the blocks they hold. */
  datatype Pool = Pool(free: seq<int>, out: set<int>)

  datatype Op = Get | Put(block: int)

  /** Only a block that is held may be released. */
  predicate Allowed(s: Pool, op: Op) {
    op.Put? ==> op.block in s.out
  }

  function Next(s: Pool, op: Op): Pool {
    match op
    case Get => if s.free == [] then s else Pool(s.free[1..], s.out + {s.free[0]})
    case Put(block) => Pool([block] + s.free, s.out - {block})
  }

  ghost predicate Distinct(s: seq<int>) {
    forall i, j :: 0 <= i < j < |s| ==> s[i] != s[j]
  }

  /** Each of the `count` blocks is free or held, once, and nothing else is. */
  ghost predicate Conserved(s: Pool, count: nat) {
    && Distinct(s.free)
    && (forall b :: b in s.free ==> b !in s.out)
    && (forall b :: b in s.free || b in s.out <==> 0 <= b < count)
  }

  ghost predicate Legal(s: Pool, ops: seq<Op>)
    decreases |ops|
  {
    ops == [] || (Allowed(s, ops[0]) && Legal(Next(s, ops[0]), ops[1..]))
  }

  ghost function Run(s: Pool, ops: seq<Op>): Pool
    decreases |ops|
  {
    if ops == [] then s else Run(Next(s, ops[0]), ops[1..])
  }

  /** Every block is held. */
  predicate AllHeld(s: Pool, count: nat) {
    forall b :: 0 <= b < count ==> b in s.out
  }

  /** What a request that leads from `s` to `s'` has to answer: NULL, which is -1, and nothing changes, exactly when
      every block is held; otherwise a block that nobody held, which its user holds now, and no other. */
  predicate Answers(s: Pool, s': Pool, block: int, count: nat) {
    if AllHeld(s, count) then block == -1 && s' == s
    else 0 <= block < count && block !in s.out && s'.out == s.out + {block}
  }

  lemma StepConserves(s: Pool, op: Op, count: nat)
    requires Conserved(s, count) && Allowed(s, op)
    ensures Conserved(Next(s, op), count)
    ensures op.Get? ==> Answers(s, Next(s, op), if s.free == [] then -1 else s.free[0], count)
    ensures op.Put? ==> Next(s, op).out == s.out - {op.block}
  {
    var s' := Next(s, op);
    if op.Get? && s.free != [] {
      assert s.free == [s.free[0]] + s'.free;
      forall b ensures b in s'.free <==> b in s.free && b != s.free[0] {
        if b in s'.free {
          var i :| 0 <= i < |s'.free| && s'.free[i] == b;
          assert s.free[i + 1] == b;
        }
      }
    }
  }

  /** Over any run of requests and releases of held blocks, every block is free or held, and a request after it
      answers as it should. */
  lemma {:induction false} RunConserves(s: Pool, ops: seq<Op>, count: nat)
    requires Conserved(s, count) && Legal(s, ops)
    ensures Conserved(Run(s, ops), count)
    ensures exists block :: Answers(Run(s, ops), Next(Run(s, ops), Get), block, count)
    decreases |ops|
  {
    if ops == [] {
      StepConserves(s, Get, count);
    } else {
      StepConserves(s, ops[0], count);
      RunConserves(Next(s, ops[0]), ops[1..], count);
    }
  }

  // -------------------------------------------------------- the linked list

  /** From `first`, the links spell `free` and end in NULL. */
  ghost predicate Chain(link: seq<int>, first: int, free: seq<int>)
    decreases |free|
  {
    if free == [] then first == -1
    else first == free[0] && 0 <= first < |link| && Chain(link, link[first], free[1..])
  }

  /** The list does not depend on what is in the blocks outside it. */
  lemma {:induction false} ChainFrame(link: seq<int>, link': seq<int>, first: int, free: seq<int>)
    requires Chain(link, first, free) && |link'| == |link|
    requires forall b :: b in free && 0 <= b < |link| ==> link'[b] == link[b]
    ensures Chain(link', first, free)
    decreases |free|
  {
    if free != [] {
      assert first in free;
      forall b | b in free[1..] && 0 <= b < |link| ensures link'[b] == link[b] {
        assert b in free;
      }
      ChainFrame(link, link', link[first], free[1..]);
    }
  }

  /** The blocks from `i` on, in order. */
  function UpFrom(i: int, n: int): (s: seq<int>)
    requires 0 <= i <= n
    ensures |s| == n - i && forall k :: 0 <= k < |s| ==> s[k] == i + k
  {
    seq(n - i, k => i + k)
  }

  lemma {:induction false} FreshChain(link: seq<int>, i: int, n: int)
    requires 0 <= i < n <= |link| && link[n - 1] == -1
    requires forall k :: i <= k < n - 1 ==> link[k] == k + 1
    ensures Chain(link, i, UpFrom(i, n))
    decreases n - i
  {
    if i < n - 1 {
      FreshChain(link, i + 1, n);
      assert UpFrom(i, n)[1..] == UpFrom(i + 1, n);
    } else {
      assert UpFrom(i, n)[1..] == [];
    }
  }

  /** `CFixBufferPool`. `link[b]` is the word of block `b` that is its `m_next` while the block is free
      and user data while it is held. */
  class FixBufferPool {
    const link: array<int>
    var bufCount: nat
    var nextBlock: int
    ghost var free: seq<int>
    ghost var out: set<int>

    ghost predicate Valid()
      reads this, link
    {
      && Chain(link[..], nextBlock, free)
      && Distinct(free)
      && (forall b :: b in free ==> b !in out)
    }

    ghost function View(): Pool
      reads this
    {
      Pool(free, out)
    }

    /** `resetMem` and `init` on memory of `count` blocks. The last store and the head of the list do not
        ask whether there is a block, so memory must be there for one. */
    constructor (memory: array<int>, count: nat)
      requires memory.Length >= count && memory.Length >= 1
      modifies memory
      ensures link == memory && bufCount == count && Valid()
      ensures View() == Pool(UpFrom(0, if count == 0 then 1 else count), {})
    {
      link := memory;
      bufCount := count;
      nextBlock := 0;
      free := UpFrom(0, if count == 0 then 1 else count);
      out := {};
      new;
      var block := 0;
      var i := 1;
      while i < count
        invariant 0 <= block < memory.Length && block == i - 1 && (i <= count || (count == 0 && i == 1))
        invariant forall k :: 0 <= k < block ==> memory[k] == k + 1
        modifies memory
      {
        memory[block] := i;
        block := memory[block];
        i := i + 1;
      }
      memory[block] := -1;
      FreshChain(memory[..], 0, block + 1);
    }

    /** `tryGetBlock`: unlinks the first block. */
    method TryGetBlock() returns (block: int)
      requires Valid()
      modifies this`nextBlock, this`free, this`out
      ensures Valid() && View() == Next(old(View()), Get)
      ensures if old(free) == [] then block == -1 && free == [] && out == old(out)
        else block == old(free)[0] && free == old(free)[1..] && out == old(out) + {block}
      ensures old(Conserved(View(), bufCount)) ==>
        Answers(old(View()), View(), block, bufCount) && Conserved(View(), bufCount)
    {
      ghost var before := View();
      block := nextBlock;
      if nextBlock != -1 {
        nextBlock := link[nextBlock];
        assert free[0] !in free[1..];
        free, out := free[1..], out + {free[0]};
      }
      if Conserved(before, bufCount) {
        StepConserves(before, Get, bufCount);
      }
    }

    /** `release`: links the block in front, over whatever its user left there. */
    method Release(block: int) returns (ok: bool)
      requires Valid() && block in out && 0 <= block < link.Length
      modifies this`nextBlock, this`free, this`out, link
      ensures Valid() && ok && link[..] == old(link[..])[block := old(nextBlock)]
      ensures View() == Next(old(View()), Put(block))
      ensures free == [block] + old(free) && out == old(out) - {block}
    {
      ghost var before, first := link[..], nextBlock;
      link[block] := nextBlock;
      nextBlock := block;
      ChainFrame(before, link[..], first, free);
      free, out := [block] + free, out - {block};
      assert free[1..] == old(free);
      ok := nextBlock != -1;
    }

    /** The holder of a block writes to it. */
    method UserWrite(block: int, value: int)
      requires Valid() && block in out && 0 <= block < link.Length
      modifies link
      ensures Valid() && View() == old(View())
      ensures link[..] == old(link[..])[block := value]
    {
      ghost var before := link[..];
      link[block] := value;
      ChainFrame(before, link[..], nextBlock, free);
    }
  }

  /** A pool set up on memory of at least one block conserves it; one set up with count 0 hands out a
      block it does not have. */
  lemma SetUpConservesIff(count: nat)
    ensures Conserved(Pool(UpFrom(0, if count == 0 then 1 else count), {}), count) <==> count > 0
  {
    var free := UpFrom(0, if count == 0 then 1 else count);
    assert free[0] in free;
    if count > 0 {
      forall b ensures b in free <==> 0 <= b < count {
        if 0 <= b < count {
          assert free[b] == b;
        }
      }
    }
  }

  // ------------------------------------------------------ carving the pools

  /** Where `PreparePktBlkPool` puts the memory of pool `i`: the product is a 32-bit word. */
  function StartOf(i: nat, poolSize: nat): nat {
    (i * poolSize) % WORD
  }

  /** Byte `a` belongs to block `k` of pool `i`. */
  ghost predicate InBlock(i: nat, k: nat, poolSize: nat, blockSize: nat, a: nat)
    requires blockSize > 0
  {
    && k < poolSize / blockSize
    && StartOf(i, poolSize) + k * blockSize <= a < StartOf(i, poolSize) + k * blockSize + blockSize
  }

  /** The loop of `PreparePktBlkPool`: the start address and block count given to each pool. */
  method PreparePktBlkPool(maxPrdcrNum: nat, poolSize: nat, blockSize: nat) returns (starts: seq<nat>, blockCount: nat)
    requires blockSize > 0
    ensures |starts| == maxPrdcrNum && blockCount == poolSize / blockSize
    ensures forall i :: 0 <= i < maxPrdcrNum ==> starts[i] == StartOf(i, poolSize) == (i * poolSize) % WORD
  {
    blockCount := poolSize / blockSize;
    starts := [];
    for i := 0 to maxPrdcrNum
      invariant |starts| == i
      invariant forall j :: 0 <= j < i ==> starts[j] == StartOf(j, poolSize)
    {
      starts := starts + [(i * poolSize) % WORD];
    }
  }

  /** No byte belongs to blocks of two pools. */
  ghost predicate PoolsDisjoint(num: nat, poolSize: nat, blockSize: nat)
    requires blockSize > 0
  {
    forall i, j, k, l, a :: 0 <= i < num && 0 <= j < num && i != j ==>
      !(InBlock(i, k, poolSize, blockSize, a) && InBlock(j, l, poolSize, blockSize, a))
  }

  /** A block lies within its pool's share of memory. */
  lemma BlockInShare(i: nat, k: nat, poolSize: nat, blockSize: nat, a: nat)
    requires blockSize > 0 && InBlock(i, k, poolSize, blockSize, a)
    ensures StartOf(i, poolSize) <= a < StartOf(i, poolSize) + poolSize
  {
    var bc := poolSize / blockSize;
    MulMonotone(k + 1, bc, blockSize);
    assert (k + 1) * blockSize == k * blockSize + blockSize;
    assert bc * blockSize <= poolSize;
  }

  /** Every byte of the blocks' part of a share is in some block. */
  lemma ShareIsBlocks(i: nat, poolSize: nat, blockSize: nat, a: nat) returns (k: nat)
    requires blockSize > 0
    requires StartOf(i, poolSize) <= a < StartOf(i, poolSize) + (poolSize / blockSize) * blockSize
    ensures InBlock(i, k, poolSize, blockSize, a)
  {
    var d := a - StartOf(i, poolSize);
    k := d / blockSize;
    assert d == k * blockSize + d % blockSize;
    if k >= poolSize / blockSize {
      MulMonotone(poolSize / blockSize, k, blockSize);
    }
  }

  /** Without wrapping, the shares are apart. */
  lemma SharesApart(num: nat, poolSize: nat, i: nat, j: nat)
    requires i < j < num && (num - 1) * poolSize < WORD
    ensures StartOf(i, poolSize) + poolSize <= StartOf(j, poolSize)
  {
    MulMonotone(j, num - 1, poolSize);
    MulMonotone(i + 1, j, poolSize);
    assert (i + 1) * poolSize == i * poolSize + poolSize;
  }

  /** When some start wraps, the first one that does lands on a block of pool 0 or pool 1. */
  lemma WrappedShareOverlaps(num: nat, poolSize: nat, blockSize: nat)
    requires 0 < blockSize <= poolSize < WORD && num >= 1 && (num - 1) * poolSize >= WORD
    ensures !PoolsDisjoint(num, poolSize, blockSize)
  {
    var i := FirstWrapped(num - 1, poolSize);
    var r, len := i * poolSize - WORD, (poolSize / blockSize) * blockSize;
    assert StartOf(i, poolSize) == r;
    assert StartOf(0, poolSize) == 0 && StartOf(1, poolSize) == poolSize;
    assert poolSize == len + poolSize % blockSize;
    assert len >= blockSize by { MulMonotone(1, poolSize / blockSize, blockSize); }
    if r < len {
      var k, l := 0, 0;
      k := ShareIsBlocks(i, poolSize, blockSize, r);
      l := ShareIsBlocks(0, poolSize, blockSize, r);
      assert InBlock(i, k, poolSize, blockSize, r) && InBlock(0, l, poolSize, blockSize, r);
    } else {
      var k, l := 0, 0;
      k := ShareIsBlocks(i, poolSize, blockSize, poolSize);
      l := ShareIsBlocks(1, poolSize, blockSize, poolSize);
      assert InBlock(i, k, poolSize, blockSize, poolSize) && InBlock(1, l, poolSize, blockSize, poolSize);
    }
  }

  lemma {:induction false} FirstWrapped(n: nat, poolSize: nat) returns (i: nat)
    requires poolSize < WORD && n * poolSize >= WORD
    ensures 2 <= i <= n && (i - 1) * poolSize < WORD <= i * poolSize < WORD + poolSize
  {
    if (n - 1) * poolSize >= WORD {
      i := FirstWrapped(n - 1, poolSize);
    } else {
      i := n;
      assert n * poolSize == (n - 1) * poolSize + poolSize;
    }
  }

  /** The blocks of the per-capture pools never overlap exactly when the last start does not wrap. */
  lemma PoolsDisjointIff(num: nat, poolSize: nat, blockSize: nat)
    requires 0 < blockSize <= poolSize < WORD && num >= 1
    ensures PoolsDisjoint(num, poolSize, blockSize) <==> (num - 1) * poolSize < WORD
  {
    if (num - 1) * poolSize < WORD {
      forall i, j, k, l, a | 0 <= i < num && 0 <= j < num && i != j
                             && InBlock(i, k, poolSize, blockSize, a) && InBlock(j, l, poolSize, blockSize, a)
        ensures false
      {
        BlockInShare(i, k, poolSize, blockSize, a);
        BlockInShare(j, l, poolSize, blockSize, a);
        SharesApart(num, poolSize, if i < j then i else j, if i < j then j else i);
      }
    } else {
      WrappedShareOverlaps(num, poolSize, blockSize);
    }
  }
}
