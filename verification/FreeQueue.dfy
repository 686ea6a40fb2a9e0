/** `CObjectPool2`: objects come from blocks that grow by doubling, and released objects go back through
    a queue that one getter and one releaser share without a lock, each step one access to a field. */
module FreeQueue {
  import opened Modular
  import opened BlockSizes

  /** An object is known by its block and its index there. */
  datatype Node = Node(blk: nat, idx: nat)

  datatype Ref = Null | To(node: Node)

  /** Where the getter is in `getObject`. */
  datatype Getter =
    | GIdle
    | GNonNull
    | GFirst(f: Ref)
    | GTake
    | GCur(cur: Node)
    | GNext(cur: Node, nx: Ref)
    | GAlloc

  /** Where the releaser is in `releaseObjectList`, with the chain of objects it was given. */
  datatype Releaser =
    | RIdle
    | RStart(chain: seq<Node>)
    | RSetLast(chain: seq<Node>)
    | RSetFirst(chain: seq<Node>)
    | RLink(chain: seq<Node>)
    | RMove(chain: seq<Node>)

  /** `next` holds the `nextNode` field of every object. `sizes` are the lengths of the allocated blocks,
      of which the last is the current one. `queue` and `out` record which objects are queued and which
      the pool's users hold; no step reads them. */
  datatype State = State(first: Ref, last: Ref, next: map<Node, Ref>,
                         sizes: seq<nat>, blockSize: nat, curIndex: nat, maxBlockSize: nat,
                         getter: Getter, releaser: Releaser, queue: seq<Node>, out: set<Node>)

  datatype Action =
    | CheckFirst(ok: bool)
    | ReadFirst
    | CompareLast(ok: bool)
    | ReadCur
    | ReadNext
    | StoreFirst
    | Allocate
    | SetLink(n: Node, r: Ref)
    | Begin(chain: seq<Node>)
    | CheckLast(ok: bool)
    | StoreLastOfEmpty
    | StoreFirstOfEmpty
    | LinkLast
    | StoreLast

  // ------------------------------------------------------------------ steps

  /** A fresh pool. */
  predicate Start(s: State) {
    && s.first == Null && s.last == Null && s.next == map[] && s.sizes == []
    && 0 < s.blockSize < WORD && s.curIndex == s.blockSize
    && s.getter == GIdle && s.releaser == RIdle && s.queue == [] && s.out == {}
  }

  /** A fresh pool whose blocks never are empty. */
  ghost predicate Init(s: State) {
    Start(s) && Stops(s.blockSize, s.maxBlockSize)
  }

  function Field(s: State, n: Node): Ref {
    if n in s.next then s.next[n] else Null
  }

  /** The objects of `chain` are linked one to the next. */
  ghost predicate Linked(next: map<Node, Ref>, chain: seq<Node>) {
    forall i :: 0 <= i < |chain| - 1 ==> chain[i] in next && next[chain[i]] == To(chain[i + 1])
  }

  ghost predicate Distinct(chain: seq<Node>) {
    forall i, j :: 0 <= i < j < |chain| ==> chain[i] != chain[j]
  }

  /** What the code does next, and what it asks of its users: they set links only in objects they hold,
      and release only chains of objects they hold. */
  ghost predicate Enabled(s: State, act: Action) {
    match act
    case CheckFirst(ok) => s.getter == GIdle && ok == (s.first != Null)
    case ReadFirst => s.getter == GNonNull
    case CompareLast(ok) => s.getter.GFirst? && ok == (s.getter.f != s.last)
    case ReadCur => s.getter == GTake && s.first.To?
    case ReadNext => s.getter.GCur? && s.first.To?
    case StoreFirst => s.getter.GNext?
    case Allocate => s.getter == GAlloc
    case SetLink(n, r) => n in s.out
    case Begin(chain) =>
      && s.releaser == RIdle && |chain| > 0 && Distinct(chain) && Linked(s.next, chain)
      && forall n :: n in chain ==> n in s.out
    case CheckLast(ok) => s.releaser.RStart? && ok == (s.last == Null)
    case StoreLastOfEmpty => s.releaser.RSetLast?
    case StoreFirstOfEmpty => s.releaser.RSetFirst?
    case LinkLast => s.releaser.RLink? && s.last.To?
    case StoreLast => s.releaser.RMove?
  }

  function ChainOf(r: Releaser): seq<Node> {
    if r.RIdle? then [] else r.chain
  }

  /** `newBlock` followed by the hand-out of the block's first object, or the hand-out of the next object
      of the current block. */
  function Allocated(s: State): State {
    var size := if s.sizes != [] then Grown(s.blockSize, s.maxBlockSize) else s.blockSize;
    var t := if s.curIndex >= s.blockSize then s.(blockSize := size, sizes := s.sizes + [size], curIndex := 0) else s;
    t.(curIndex := t.curIndex + 1, getter := GIdle, out := s.out + {Issued(s)})
  }

  /** The object that the allocation path returns. */
  function Issued(s: State): Node {
    if s.curIndex >= s.blockSize then Node(|s.sizes|, 0)
    else Node(if s.sizes == [] then 0 else |s.sizes| - 1, s.curIndex)
  }

  ghost function Next(s: State, act: Action): State
    requires Enabled(s, act)
  {
    match act
    case CheckFirst(ok) => s.(getter := if ok then GNonNull else GAlloc)
    case ReadFirst => s.(getter := GFirst(s.first))
    case CompareLast(ok) => s.(getter := if ok then GTake else GAlloc)
    case ReadCur => s.(getter := GCur(s.first.node))
    case ReadNext => s.(getter := GNext(s.getter.cur, Field(s, s.first.node)))
    case StoreFirst =>
      s.(first := s.getter.nx, getter := GIdle, out := s.out + {s.getter.cur},
         queue := if s.queue == [] then [] else s.queue[1..])
    case Allocate => Allocated(s)
    case SetLink(n, r) => s.(next := s.next[n := r])
    case Begin(chain) => s.(releaser := RStart(chain), out := s.out - (set n | n in chain))
    case CheckLast(ok) => s.(releaser := if ok then RSetLast(s.releaser.chain) else RLink(s.releaser.chain))
    case StoreLastOfEmpty =>
      s.(last := To(Last(s.releaser.chain)), releaser := RSetFirst(s.releaser.chain))
    case StoreFirstOfEmpty =>
      s.(first := To(First(s.releaser.chain)), releaser := RIdle, queue := s.releaser.chain)
    case LinkLast =>
      s.(next := s.next[s.last.node := To(First(s.releaser.chain))], releaser := RMove(s.releaser.chain))
    case StoreLast =>
      s.(last := To(Last(s.releaser.chain)), releaser := RIdle, queue := s.queue + s.releaser.chain)
  }

  function First(chain: seq<Node>): Node {
    if chain == [] then Node(0, 0) else chain[0]
  }

  function Last(chain: seq<Node>): Node {
    if chain == [] then Node(0, 0) else chain[|chain| - 1]
  }

  /** The assertions written in the source. */
  ghost predicate Asserts(s: State, act: Action) {
    match act
    case CheckLast(ok) => ok ==> s.first == Null
    case Allocate => Allocated(s).curIndex - 1 < Allocated(s).blockSize
    case _ => true
  }

  // ----------------------------------------------------------- invariant

  /** The object has been handed out at least once. */
  predicate Known(s: State, n: Node) {
    n.blk < |s.sizes| && n.idx < s.sizes[n.blk] && (n.blk == |s.sizes| - 1 ==> n.idx < s.curIndex)
  }

  /** From `first`, the `nextNode` fields lead through the queue to `last`. */
  ghost predicate QueueOk(s: State) {
    && Distinct(s.queue)
    && Linked(s.next, s.queue)
    && (s.queue == [] ==> s.first == Null)
    && (s.queue != [] ==> s.first == To(First(s.queue)) && s.last == To(Last(s.queue)))
    && (s.queue == [] && !s.releaser.RSetFirst? ==> s.last == Null)
  }

  ghost predicate ReleaserOk(s: State) {
    var chain := ChainOf(s.releaser);
    && Distinct(chain)
    && Linked(s.next, chain)
    && (!s.releaser.RIdle? ==> chain != [])
    && (s.releaser.RSetLast? || s.releaser.RSetFirst? ==> s.queue == [])
    && (s.releaser.RSetFirst? ==> s.last == To(Last(chain)))
    && (s.releaser.RLink? || s.releaser.RMove? ==> s.queue != [])
    && (s.releaser.RMove? ==> Last(s.queue) in s.next && s.next[Last(s.queue)] == To(First(chain)))
  }

  ghost predicate GetterOk(s: State) {
    && (s.getter.GNonNull? || s.getter.GFirst? ==> s.queue != [])
    && (s.getter.GFirst? ==> s.getter.f == s.first)
    && (s.getter.GTake? || s.getter.GCur? || s.getter.GNext? ==> |s.queue| >= 2)
    && (s.getter.GCur? || s.getter.GNext? ==> s.getter.cur == First(s.queue))
    && (s.getter.GNext? ==> |s.queue| >= 2 && s.getter.nx == To(s.queue[1]))
  }

  /** Every object that was ever handed out is in exactly one place: held by a user, queued, or in the
      chain being released. */
  ghost predicate PlacesOk(s: State) {
    && (forall n :: n in s.out || n in s.queue || n in ChainOf(s.releaser) <==> Known(s, n))
    && (forall n :: n in s.out ==> n !in s.queue && n !in ChainOf(s.releaser))
    && (forall n :: n in s.queue ==> n !in ChainOf(s.releaser))
  }

  ghost predicate BlocksOk(s: State) {
    && 0 < s.blockSize < WORD && Stops(s.blockSize, s.maxBlockSize)
    && s.curIndex <= s.blockSize
    && (s.sizes == [] ==> s.curIndex == s.blockSize)
    && (s.sizes != [] ==> s.sizes[|s.sizes| - 1] == s.blockSize)
  }

  ghost predicate Inv(s: State) {
    QueueOk(s) && ReleaserOk(s) && GetterOk(s) && PlacesOk(s) && BlocksOk(s)
  }

  lemma InitInv(s: State)
    requires Init(s)
    ensures Inv(s)
  {
  }

  lemma KeepReads(s: State, act: Action)
    requires Inv(s) && Enabled(s, act)
    requires act.CheckFirst? || act.ReadFirst? || act.CompareLast? || act.ReadCur? || act.ReadNext? || act.CheckLast?
    ensures Inv(Next(s, act))
  {
    if act.ReadNext? {
      assert s.next[s.queue[0]] == To(s.queue[0 + 1]);
    }
  }

  lemma KeepStoreFirst(s: State)
    requires Inv(s) && Enabled(s, StoreFirst)
    ensures Inv(Next(s, StoreFirst))
  {
    var s' := Next(s, StoreFirst);
    var q, q' := s.queue, s'.queue;
    assert q == [q[0]] + q';
    forall n ensures n in q' <==> n in q && n != q[0] {
      if n in q' {
        var i :| 0 <= i < |q'| && q'[i] == n;
        assert q[i + 1] == n;
      }
    }
    forall i | 0 <= i < |q'| - 1 ensures q'[i] in s.next && s.next[q'[i]] == To(q'[i + 1]) {
      assert s.next[q[i + 1]] == To(q[i + 1 + 1]);
    }
  }

  lemma KeepAllocate(s: State)
    requires Inv(s) && Enabled(s, Allocate)
    ensures Inv(Next(s, Allocate))
    ensures !Known(s, Issued(s)) && Asserts(s, Allocate)
  {
    var s' := Next(s, Allocate);
    StopsOn(s.blockSize, s.maxBlockSize);
    forall n ensures Known(s', n) <==> Known(s, n) || n == Issued(s) {
    }
  }

  lemma KeepSetLink(s: State, n: Node, r: Ref)
    requires Inv(s) && Enabled(s, SetLink(n, r))
    ensures Inv(Next(s, SetLink(n, r)))
  {
    assert s.queue != [] ==> Last(s.queue) in s.queue;
  }

  lemma KeepBegin(s: State, chain: seq<Node>)
    requires Inv(s) && Enabled(s, Begin(chain))
    ensures Inv(Next(s, Begin(chain)))
  {
  }

  lemma KeepFirstRelease(s: State, act: Action)
    requires Inv(s) && Enabled(s, act) && (act.StoreLastOfEmpty? || act.StoreFirstOfEmpty?)
    ensures Inv(Next(s, act))
  {
  }

  lemma KeepLinkLast(s: State)
    requires Inv(s) && Enabled(s, LinkLast)
    ensures Inv(Next(s, LinkLast))
  {
    var last := s.last.node;
    assert last == s.queue[|s.queue| - 1];
    forall i | 0 <= i < |s.queue| - 1 ensures s.queue[i] != last {
    }
    forall i | 0 <= i < |ChainOf(s.releaser)| ensures ChainOf(s.releaser)[i] != last {
      assert ChainOf(s.releaser)[i] in ChainOf(s.releaser) && last in s.queue;
    }
  }

  lemma KeepStoreLast(s: State)
    requires Inv(s) && Enabled(s, StoreLast)
    ensures Inv(Next(s, StoreLast))
  {
    var q, chain := s.queue, s.releaser.chain;
    var q' := q + chain;
    forall i, j | 0 <= i < j < |q'| ensures q'[i] != q'[j] {
      if i < |q| <= j {
        assert q'[i] in q && q'[j] in chain;
      } else if j < |q| {
        assert q'[i] == q[i] && q'[j] == q[j];
      } else {
        assert q'[i] == chain[i - |q|] && q'[j] == chain[j - |q|];
      }
    }
    forall i | 0 <= i < |q'| - 1 ensures q'[i] in s.next && s.next[q'[i]] == To(q'[i + 1]) {
      if i < |q| - 1 {
        assert s.next[q[i]] == To(q[i + 1]);
      } else if i >= |q| {
        assert s.next[chain[i - |q|]] == To(chain[i - |q| + 1]);
      }
    }
  }

  lemma KeepInv(s: State, act: Action)
    requires Inv(s) && Enabled(s, act)
    ensures Inv(Next(s, act)) && Asserts(s, act)
  {
    match act
    case StoreFirst => KeepStoreFirst(s);
    case Allocate => KeepAllocate(s);
    case SetLink(n, r) => KeepSetLink(s, n, r);
    case Begin(chain) => KeepBegin(s, chain);
    case StoreLastOfEmpty => KeepFirstRelease(s, act);
    case StoreFirstOfEmpty => KeepFirstRelease(s, act);
    case LinkLast => KeepLinkLast(s);
    case StoreLast => KeepStoreLast(s);
    case _ => KeepReads(s, act);
  }

  // ----------------------------------------------------------------- runs

  ghost predicate Legal(s: State, acts: seq<Action>)
    decreases |acts|
  {
    acts == [] || (Enabled(s, acts[0]) && Legal(Next(s, acts[0]), acts[1..]))
  }

  ghost function Exec(s: State, acts: seq<Action>): State
    requires Legal(s, acts)
    decreases |acts|
  {
    if acts == [] then s else Exec(Next(s, acts[0]), acts[1..])
  }

  lemma {:induction false} RunInv(s: State, acts: seq<Action>)
    requires Inv(s) && Legal(s, acts)
    ensures Inv(Exec(s, acts))
    decreases |acts|
  {
    if acts != [] {
      KeepInv(s, acts[0]);
      RunInv(Next(s, acts[0]), acts[1..]);
    }
  }

  /** Some interleaving of one getter and one releaser leads to `s`. */
  ghost predicate Reachable(s: State) {
    exists s0, acts :: Init(s0) && Legal(s0, acts) && Exec(s0, acts) == s
  }

  lemma ReachableInv(s: State)
    requires Reachable(s)
    ensures Inv(s)
  {
    var s0, acts :| Init(s0) && Legal(s0, acts) && Exec(s0, acts) == s;
    InitInv(s0);
    RunInv(s0, acts);
  }

  /** The blocks allocated so far have the lengths that doubling gives. */
  ghost predicate SizesOk(s: State, b: nat, max: nat) {
    && s.maxBlockSize == max && s.blockSize == SizeAfter(b, max, if s.sizes == [] then 0 else |s.sizes| - 1)
    && forall k :: 0 <= k < |s.sizes| ==> s.sizes[k] == SizeAfter(b, max, k)
  }

  lemma StepSizes(s: State, act: Action, b: nat, max: nat)
    requires SizesOk(s, b, max) && Enabled(s, act)
    ensures SizesOk(Next(s, act), b, max) && |Next(s, act).sizes| >= |s.sizes|
  {
    if act.Allocate? && s.sizes != [] {
      GrownAfter(b, max, |s.sizes| - 1);
    }
  }

  lemma {:induction false} RunSizes(s: State, acts: seq<Action>, b: nat, max: nat)
    requires SizesOk(s, b, max) && Legal(s, acts)
    ensures SizesOk(Exec(s, acts), b, max)
    decreases |acts|
  {
    if acts != [] {
      StepSizes(s, acts[0], b, max);
      RunSizes(Next(s, acts[0]), acts[1..], b, max);
    }
  }

  lemma SizesOn(b: nat, max: nat)
    ensures 0 < b < WORD && Stops(b, max) ==> 0 < Grown(b, max) < WORD && Stops(Grown(b, max), max)
    ensures Fits(b, max) ==> b <= Grown(b, max) <= 2 * b && Fits(Grown(b, max), max)
  {
    if 0 < b < WORD && Stops(b, max) {
      StopsOn(b, max);
    }
    if Fits(b, max) {
      FitsOn(b, max);
    }
  }

  /** On every run the blocks are as long as doubling makes them and none is empty; none is shorter than the one
      before if doubling stops in time. */
  lemma BlocksDouble(s0: State, acts: seq<Action>, k: nat)
    requires Init(s0) && Legal(s0, acts) && k < |Exec(s0, acts).sizes|
    ensures Exec(s0, acts).sizes[k] == SizeAfter(s0.blockSize, s0.maxBlockSize, k) > 0
    ensures Fits(s0.blockSize, s0.maxBlockSize) && k + 1 < |Exec(s0, acts).sizes| ==>
      Exec(s0, acts).sizes[k] <= Exec(s0, acts).sizes[k + 1]
  {
    RunSizes(s0, acts, s0.blockSize, s0.maxBlockSize);
    NeverEmptyIff(s0.blockSize, s0.maxBlockSize);
    if Fits(s0.blockSize, s0.maxBlockSize) {
      NeverShrinks(s0.blockSize, s0.maxBlockSize, k);
    }
  }

  /** An object is returned only when no user holds it and it is not being released; afterwards exactly
      its user has it. */
  lemma NeverIssuesOutstanding(s: State, act: Action)
    requires Reachable(s) && Enabled(s, act) && (act.StoreFirst? || act.Allocate?)
    ensures var n := if act.StoreFirst? then s.getter.cur else Issued(s);
      && n !in s.out && n !in ChainOf(s.releaser)
      && Next(s, act).out == s.out + {n} && n !in Next(s, act).queue
  {
    ReachableInv(s);
    KeepInv(s, act);
  }

  /** In every reachable state the chain from the first to the last released object is intact. */
  lemma ChainIntact(s: State, i: nat)
    requires Reachable(s) && i < |s.queue|
    ensures s.first == To(s.queue[0]) && s.last == To(s.queue[|s.queue| - 1])
    ensures i + 1 < |s.queue| ==> s.queue[i] in s.next && s.next[s.queue[i]] == To(s.queue[i + 1])
  {
    ReachableInv(s);
  }

  /** Every object of every block is held, queued, being released, or not yet handed out and in the
      current block; and in one of these places only. */
  lemma EveryObjectAccountedFor(s: State, n: Node)
    requires Reachable(s) && n.blk < |s.sizes| && n.idx < s.sizes[n.blk]
    ensures n in s.out || n in s.queue || n in ChainOf(s.releaser) || (n.blk == |s.sizes| - 1 && n.idx >= s.curIndex)
    ensures n in s.out ==> n !in s.queue && n !in ChainOf(s.releaser)
    ensures n in s.queue ==> n !in ChainOf(s.releaser)
    ensures n.blk == |s.sizes| - 1 && n.idx >= s.curIndex ==> n !in s.out && n !in s.queue && n !in ChainOf(s.releaser)
  {
    ReachableInv(s);
    assert Known(s, n) || (n.blk == |s.sizes| - 1 && n.idx >= s.curIndex);
  }

  /** The two ends differ exactly when two objects are queued. */
  lemma QueueEnds(s: State)
    requires QueueOk(s) && s.first != Null
    ensures |s.queue| >= 2 <==> s.first != s.last
  {
    if |s.queue| >= 2 {
      assert s.queue[0] != s.queue[|s.queue| - 1];
    }
  }

  /** When the getter turns to fresh objects, at most one released object is held back in the queue. */
  lemma HeldBackAtMostOne(s: State, act: Action)
    requires Reachable(s) && Enabled(s, act)
    requires act == CheckFirst(false) || act == CompareLast(false)
    ensures |s.queue| <= 1
  {
    ReachableInv(s);
    if s.first != Null {
      QueueEnds(s);
    }
  }

  /** The assertions in the source hold on every interleaving. */
  lemma AssertionsHold(s: State, act: Action)
    requires Reachable(s) && Enabled(s, act)
    ensures Asserts(s, act)
  {
    ReachableInv(s);
    KeepInv(s, act);
  }

  /** A pool from which only fresh objects were taken. */
  ghost predicate Unreleased(s: State) {
    s.first == Null && s.getter == GIdle && s.releaser == RIdle
  }

  /** Handing out one fresh object. */
  lemma TakeFresh(s0: State, acts: seq<Action>, s: State) returns (acts': seq<Action>, s': State)
    requires Legal(s0, acts) && s == Exec(s0, acts) && Unreleased(s)
    ensures Legal(s0, acts') && s' == Exec(s0, acts') == Allocated(s) && Unreleased(s')
  {
    var t: State;
    acts', t := Extend(s0, acts, CheckFirst(false));
    assert t == s.(getter := GAlloc);
    acts', s' := Extend(s0, acts', Allocate);
  }

  /** Handing out the rest of the current block. */
  lemma {:induction false} TakeBlock(s0: State, acts: seq<Action>, s: State) returns (acts': seq<Action>, s': State)
    requires Legal(s0, acts) && s == Exec(s0, acts) && Unreleased(s) && s.curIndex <= s.blockSize
    ensures Legal(s0, acts') && s' == Exec(s0, acts') && Unreleased(s') && s'.curIndex == s'.blockSize
    ensures s'.sizes == s.sizes && s'.blockSize == s.blockSize && s'.maxBlockSize == s.maxBlockSize
    decreases s.blockSize - s.curIndex
  {
    acts', s' := acts, s;
    if s.curIndex < s.blockSize {
      acts', s' := TakeFresh(s0, acts, s);
      acts', s' := TakeBlock(s0, acts', s');
    }
  }

  /** Handing out the objects of the first `k + 1` blocks, none of which is empty. */
  lemma {:induction false} TakeBlocks(s0: State, k: nat) returns (acts: seq<Action>, s: State)
    requires Start(s0) && forall i :: 0 <= i <= k ==> SizeAfter(s0.blockSize, s0.maxBlockSize, i) > 0
    ensures Legal(s0, acts) && s == Exec(s0, acts) && Unreleased(s) && s.curIndex == s.blockSize && s.sizes != []
    ensures s.blockSize == SizeAfter(s0.blockSize, s0.maxBlockSize, k) && s.maxBlockSize == s0.maxBlockSize
    decreases k
  {
    acts, s := [], s0;
    if k > 0 {
      acts, s := TakeBlocks(s0, k - 1);
      GrownAfter(s0.blockSize, s0.maxBlockSize, k - 1);
    }
    acts, s := TakeFresh(s0, acts, s);
    acts, s := TakeBlock(s0, acts, s);
  }

  /** The first length that is 0. */
  lemma {:induction false} FirstEmpty(b: nat, max: nat, k: nat) returns (e: nat)
    requires b > 0 && SizeAfter(b, max, k) == 0
    ensures e > 0 && SizeAfter(b, max, e) == 0 && forall i :: 0 <= i < e ==> SizeAfter(b, max, i) > 0
    decreases k
  {
    if i: nat :| i < k && SizeAfter(b, max, i) == 0 {
      e := FirstEmpty(b, max, i);
    } else {
      e := k;
    }
  }

  /** The assertions hold on every run of a fresh pool exactly when its blocks never are empty. */
  lemma AssertionsHoldIff(s0: State)
    requires Start(s0)
    ensures (forall acts, act :: Legal(s0, acts) && Enabled(Exec(s0, acts), act) ==> Asserts(Exec(s0, acts), act))
      <==> Stops(s0.blockSize, s0.maxBlockSize)
  {
    if Stops(s0.blockSize, s0.maxBlockSize) {
      forall acts, act | Legal(s0, acts) && Enabled(Exec(s0, acts), act) ensures Asserts(Exec(s0, acts), act) {
        assert Reachable(Exec(s0, acts));
        AssertionsHold(Exec(s0, acts), act);
      }
    } else {
      var acts := EmptyBlockFails(s0);
    }
  }

  /** Otherwise some run comes to an empty block, and asks it for an object. */
  lemma EmptyBlockFails(s0: State) returns (acts: seq<Action>)
    requires Start(s0) && !Stops(s0.blockSize, s0.maxBlockSize)
    ensures Legal(s0, acts) && Enabled(Exec(s0, acts), Allocate) && !Asserts(Exec(s0, acts), Allocate)
  {
    var b, max := s0.blockSize, s0.maxBlockSize;
    NeverEmptyIff(b, max);
    var k: nat :| SizeAfter(b, max, k) == 0;
    var e := FirstEmpty(b, max, k);
    var s: State;
    acts, s := TakeBlocks(s0, e - 1);
    GrownAfter(b, max, e - 1);
    acts, s := Extend(s0, acts, CheckFirst(false));
  }

  /** The steps inside `getObject`. */
  predicate OfGetter(act: Action) {
    act.ReadFirst? || act.CompareLast? || act.ReadCur? || act.ReadNext? || act.StoreFirst? || act.Allocate?
  }

  /** The steps inside `releaseObjectList`. */
  predicate OfReleaser(act: Action) {
    act.CheckLast? || act.StoreLastOfEmpty? || act.StoreFirstOfEmpty? || act.LinkLast? || act.StoreLast?
  }

  /** Neither thread ever follows a null pointer or gets stuck inside a call. */
  lemma NeverStuck(s: State)
    requires Reachable(s)
    ensures s.getter != GIdle ==> exists act :: Enabled(s, act) && OfGetter(act)
    ensures s.releaser != RIdle ==> exists act :: Enabled(s, act) && OfReleaser(act)
  {
    ReachableInv(s);
    if s.getter != GIdle {
      assert Enabled(s, match s.getter
        case GNonNull => ReadFirst
        case GFirst(f) => CompareLast(f != s.last)
        case GTake => ReadCur
        case GCur(_) => ReadNext
        case GNext(_, _) => StoreFirst
        case GAlloc => Allocate
        case GIdle => Allocate);
    }
    if s.releaser != RIdle {
      assert Enabled(s, match s.releaser
        case RStart(_) => CheckLast(s.last == Null)
        case RSetLast(_) => StoreLastOfEmpty
        case RSetFirst(_) => StoreFirstOfEmpty
        case RLink(_) => LinkLast
        case RMove(_) => StoreLast
        case RIdle => StoreLast);
    }
  }

  // ------------------------------------------------------------ the object

  /** `CObjectPool2`. Each method, run undisturbed, is a run of the step system. */
  class ObjectPool2 {
    var firstDeleteNode: Ref
    var lastDeleteNode: Ref
    var nextNode: map<Node, Ref>
    var blockSizes: seq<nat>
    var blockSize: nat
    var curIndex: nat
    const maxBlockSize: nat
    ghost var queue: seq<Node>
    ghost var out: set<Node>

    ghost function View(): State
      reads this
    {
      State(firstDeleteNode, lastDeleteNode, nextNode, blockSizes, blockSize, curIndex, maxBlockSize,
            GIdle, RIdle, queue, out)
    }

    constructor (blockSize: nat, maxBlockSize: nat)
      requires 0 < blockSize < WORD
      ensures Start(View()) && (Init(View()) <==> Stops(blockSize, maxBlockSize))
      ensures View().queue == [] && View().out == {} && this.blockSize == blockSize && this.maxBlockSize == maxBlockSize
      ensures curIndex == blockSize && blockSizes == []
    {
      this.blockSize := blockSize;
      this.maxBlockSize := maxBlockSize;
      curIndex := blockSize;
      firstDeleteNode, lastDeleteNode := Null, Null;
      nextNode, blockSizes := map[], [];
      queue, out := [], {};
    }

    /** `newBlock`: the next block is not empty, and at least as long as the last if doubling stops in time. */
    method NewBlock()
      modifies this
      ensures blockSize == if old(blockSizes) == [] then old(blockSize) else Grown(old(blockSize), maxBlockSize)
      ensures 0 < old(blockSize) < WORD && Stops(old(blockSize), maxBlockSize) ==>
        0 < blockSize < WORD && Stops(blockSize, maxBlockSize)
      ensures Fits(old(blockSize), maxBlockSize) ==>
        old(blockSize) <= blockSize <= 2 * old(blockSize) && Fits(blockSize, maxBlockSize)
      ensures blockSizes == old(blockSizes) + [blockSize] && curIndex == 0
      ensures firstDeleteNode == old(firstDeleteNode) && lastDeleteNode == old(lastDeleteNode)
      ensures nextNode == old(nextNode) && queue == old(queue) && out == old(out)
    {
      SizesOn(blockSize, maxBlockSize);
      if blockSize < maxBlockSize && blockSizes != [] {
        blockSize := (2 * blockSize) % WORD;
      }
      blockSizes := blockSizes + [blockSize];
      curIndex := 0;
    }

    /** `getObject`. */
    method GetObject() returns (n: Node, ghost acts: seq<Action>)
      requires Inv(View())
      modifies this
      ensures Legal(old(View()), acts) && View() == Exec(old(View()), acts) && Inv(View())
      ensures n !in old(out) && out == old(out) + {n}
      ensures |old(queue)| >= 2 <==>
        acts == [CheckFirst(true), ReadFirst, CompareLast(true), ReadCur, ReadNext, StoreFirst]
      ensures |old(queue)| >= 2 ==> n == old(queue)[0] && queue == old(queue)[1..]
      ensures |old(queue)| < 2 ==> n == Issued(old(View())) && queue == old(queue)
      ensures lastDeleteNode == old(lastDeleteNode) && nextNode == old(nextNode)
      ensures |old(queue)| >= 2 ==>
        && firstDeleteNode == To(old(queue)[1])
        && blockSizes == old(blockSizes) && blockSize == old(blockSize) && curIndex == old(curIndex)
      ensures |old(queue)| < 2 ==> firstDeleteNode == old(firstDeleteNode)
      ensures |old(queue)| < 2 && old(curIndex) < old(blockSize) ==>
        && n == Node(|blockSizes| - 1, old(curIndex)) && curIndex == old(curIndex) + 1
        && blockSizes == old(blockSizes) && blockSize == old(blockSize)
      ensures |old(queue)| < 2 && old(curIndex) == old(blockSize) ==>
        && n == Node(|old(blockSizes)|, 0) && curIndex == 1 && blockSizes == old(blockSizes) + [blockSize]
        && blockSize == if old(blockSizes) == [] then old(blockSize) else Grown(old(blockSize), maxBlockSize)
    {
      if firstDeleteNode != Null && firstDeleteNode != lastDeleteNode {
        acts := TakeRun(View());
        var cur := firstDeleteNode.node;
        firstDeleteNode := if cur in nextNode then nextNode[cur] else Null;
        Hand(cur, queue[1..]);
        return cur, acts;
      }
      acts := AllocateRun(View());
      n := if curIndex >= blockSize then Node(|blockSizes|, 0) else Node(|blockSizes| - 1, curIndex);
      if curIndex >= blockSize {
        NewBlock();
      }
      curIndex := curIndex + 1;
      Hand(n, queue);
    }

    /** An object goes to its user; `rest` is what stays queued. */
    ghost method Hand(n: Node, rest: seq<Node>)
      modifies this`queue, this`out
      ensures queue == rest && out == old(out) + {n}
    {
      queue, out := rest, out + {n};
    }

    /** The user of an object stores its `nextNode`. */
    method SetNext(n: Node, r: Ref)
      requires Inv(View()) && n in out
      modifies this
      ensures View() == Next(old(View()), SetLink(n, r)) && Inv(View())
    {
      KeepInv(View(), SetLink(n, r));
      nextNode := nextNode[n := r];
    }

    /** `releaseObjectList` on a chain of held objects; `releaseObject` is the chain of one. */
    method ReleaseObjectList(from: Node, to: Node, ghost chain: seq<Node>) returns (ghost acts: seq<Action>)
      requires Inv(View()) && Enabled(View(), Begin(chain)) && from == First(chain) && to == Last(chain)
      modifies this
      ensures Legal(old(View()), acts) && View() == Exec(old(View()), acts) && Inv(View())
      ensures queue == old(queue) + chain && out == old(out) - (set n | n in chain)
      ensures lastDeleteNode == To(to)
      ensures if old(lastDeleteNode) == Null then firstDeleteNode == To(from) && nextNode == old(nextNode)
        else
          && firstDeleteNode == old(firstDeleteNode)
          && nextNode == old(nextNode)[old(lastDeleteNode).node := To(from)]
      ensures blockSizes == old(blockSizes) && blockSize == old(blockSize) && curIndex == old(curIndex)
    {
      acts := ReleaseRun(View(), chain);
      if lastDeleteNode == Null {
        lastDeleteNode, firstDeleteNode := To(to), To(from);
      } else {
        nextNode := nextNode[lastDeleteNode.node := To(from)];
        lastDeleteNode := To(to);
      }
      Deliver(chain);
    }

    /** The objects of a chain go from their users to the queue. */
    ghost method Deliver(chain: seq<Node>)
      modifies this`queue, this`out
      ensures queue == old(queue) + chain && out == old(out) - (set n | n in chain)
    {
      queue, out := queue + chain, out - (set n | n in chain);
    }
  }

  /** One more step of a run. */
  lemma Extend(s: State, acts: seq<Action>, act: Action) returns (acts': seq<Action>, s': State)
    requires Legal(s, acts) && Enabled(Exec(s, acts), act)
    ensures acts' == acts + [act] && Legal(s, acts') && s' == Exec(s, acts') == Next(Exec(s, acts), act)
  {
    LegalAppend(s, acts, act);
    acts' := acts + [act];
    s' := Exec(s, acts');
  }

  lemma {:induction false} LegalAppend(s: State, acts: seq<Action>, act: Action)
    requires Legal(s, acts) && Enabled(Exec(s, acts), act)
    ensures Legal(s, acts + [act]) && Exec(s, acts + [act]) == Next(Exec(s, acts), act)
    decreases |acts|
  {
    if acts == [] {
      var none: seq<Action> := [];
      assert ([] + [act])[1..] == none;
      assert Legal(Next(s, act), none);
    } else {
      assert (acts + [act])[1..] == acts[1..] + [act];
      LegalAppend(Next(s, acts[0]), acts[1..], act);
    }
  }

  /** `getObject` when two objects are queued. */
  lemma TakeRun(s: State) returns (acts: seq<Action>)
    requires Inv(s) && s.getter == GIdle && s.first != Null && s.first != s.last
    ensures acts == [CheckFirst(true), ReadFirst, CompareLast(true), ReadCur, ReadNext, StoreFirst]
    ensures |s.queue| >= 2 && s.first == To(s.queue[0]) && s.queue[0] !in s.out
    ensures Legal(s, acts) && Inv(Exec(s, acts))
    ensures Exec(s, acts) == s.(first := Field(s, s.queue[0]), out := s.out + {s.queue[0]}, queue := s.queue[1..])
  {
    QueueEnds(s);
    acts := TakeSteps(s, s.queue[0]);
    RunInv(s, acts);
  }

  lemma TakeSteps(s: State, n: Node) returns (acts: seq<Action>)
    requires s.getter == GIdle && s.first == To(n) && s.first != s.last && s.queue != []
    ensures acts == [CheckFirst(true), ReadFirst, CompareLast(true), ReadCur, ReadNext, StoreFirst]
    ensures Legal(s, acts)
    ensures Exec(s, acts) == s.(first := Field(s, n), out := s.out + {n}, queue := s.queue[1..])
  {
    var t: State;
    acts, t := Extend(s, [], CheckFirst(true));
    acts, t := Extend(s, acts, ReadFirst);
    assert t == s.(getter := GFirst(To(n)));
    acts, t := Extend(s, acts, CompareLast(true));
    acts, t := Extend(s, acts, ReadCur);
    assert t == s.(getter := GCur(n));
    acts, t := Extend(s, acts, ReadNext);
    assert t == s.(getter := GNext(n, Field(s, n)));
    acts, t := Extend(s, acts, StoreFirst);
  }

  /** `getObject` otherwise. */
  lemma AllocateRun(s: State) returns (acts: seq<Action>)
    requires Inv(s) && s.getter == GIdle && !(s.first != Null && s.first != s.last)
    ensures |acts| < 6 && |s.queue| < 2
    ensures Legal(s, acts) && Inv(Exec(s, acts)) && Exec(s, acts) == Allocated(s)
    ensures Issued(s) !in s.out
  {
    if s.first != Null {
      QueueEnds(s);
    }
    acts := AllocateSteps(s);
    RunInv(s, acts);
    KeepAllocate(s.(getter := GAlloc));
  }

  lemma AllocateSteps(s: State) returns (acts: seq<Action>)
    requires s.getter == GIdle && !(s.first != Null && s.first != s.last)
    ensures |acts| < 6 && Legal(s, acts) && Exec(s, acts) == Allocated(s)
  {
    var t: State;
    if s.first == Null {
      acts, t := Extend(s, [], CheckFirst(false));
    } else {
      acts, t := Extend(s, [], CheckFirst(true));
      acts, t := Extend(s, acts, ReadFirst);
      assert t == s.(getter := GFirst(s.first));
      acts, t := Extend(s, acts, CompareLast(false));
    }
    assert t == s.(getter := GAlloc);
    acts, t := Extend(s, acts, Allocate);
  }

  /** What `releaseObjectList` leaves behind. */
  ghost function Released(s: State, chain: seq<Node>): State {
    var t :=
      if s.last.Null? then s.(first := To(First(chain)))
      else s.(next := s.next[s.last.node := To(First(chain))]);
    t.(last := To(Last(chain)), queue := s.queue + chain, out := s.out - (set n | n in chain))
  }

  /** `releaseObjectList`. */
  lemma ReleaseRun(s: State, chain: seq<Node>) returns (acts: seq<Action>)
    requires Inv(s) && s.getter == GIdle && Enabled(s, Begin(chain))
    ensures Legal(s, acts) && Inv(Exec(s, acts)) && Exec(s, acts) == Released(s, chain)
  {
    acts := ReleaseSteps(s, chain);
    RunInv(s, acts);
  }

  lemma ReleaseSteps(s: State, chain: seq<Node>) returns (acts: seq<Action>)
    requires Enabled(s, Begin(chain)) && (s.last == Null ==> s.queue == [])
    ensures Legal(s, acts) && Exec(s, acts) == Released(s, chain)
  {
    var out := s.out - (set n | n in chain);
    var t: State;
    acts, t := Extend(s, [], Begin(chain));
    assert t == s.(releaser := RStart(chain), out := out);
    if s.last == Null {
      acts, t := Extend(s, acts, CheckLast(true));
      acts, t := Extend(s, acts, StoreLastOfEmpty);
      assert t == s.(releaser := RSetFirst(chain), last := To(Last(chain)), out := out);
      acts, t := Extend(s, acts, StoreFirstOfEmpty);
      assert s.queue + chain == chain;
    } else {
      acts, t := Extend(s, acts, CheckLast(false));
      acts, t := Extend(s, acts, LinkLast);
      assert t == s.(releaser := RMove(chain), next := s.next[s.last.node := To(First(chain))], out := out);
      acts, t := Extend(s, acts, StoreLast);
    }
  }
}
