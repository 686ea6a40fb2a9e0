/** What every run of the modular ring keeps, whatever the interleaving, the number of producers and
    the number of modules. */
module RingTheorems {
  import opened RingTypes
  import opened RingGeometry
  import opened Modular
  import opened RingRefinement
  import opened RingRuns
  import S = RingSteps
  import L = RingLog

  /** Some run all of whose claims are safe leads from a started ring to `c`. */
  ghost predicate Reachable(cfg: Config, c: S.Ring) {
    exists c0, acts ::
      S.Init(cfg, c0) && S.Legal(cfg, c0, acts) && S.SafeRun(cfg, c0, acts) && S.Exec(cfg, c0, acts) == c
  }

  /** A started ring is reachable, */
  lemma StartReachable(cfg: Config, c: S.Ring)
    requires S.Init(cfg, c)
    ensures Reachable(cfg, c)
  {
    var none: seq<Action> := [];
    assert S.Legal(cfg, c, none) && S.SafeRun(cfg, c, none) && S.Exec(cfg, c, none) == c;
  }

  /** and so is whatever any step leads to from a reachable ring, unless it is a claim that is not safe. */
  lemma ReachableGoesOn(cfg: Config, c: S.Ring, act: Action)
    requires S.Shape(cfg, c) && Reachable(cfg, c) && S.Enabled(cfg, c, act) && S.SafeClaim(cfg, c, act)
    ensures Reachable(cfg, S.Next(cfg, c, act))
  {
    var c0, run :| S.Init(cfg, c0) && S.Legal(cfg, c0, run) && S.SafeRun(cfg, c0, run) && S.Exec(cfg, c0, run) == c;
    LegalAppend(cfg, c0, run, act);
    assert S.SafeRun(cfg, c0, run + [act]);
  }

  /** and so is what any run of safe claims leads to. */
  lemma {:induction false} SafeRunReaches(cfg: Config, c: S.Ring, acts: seq<Action>)
    requires S.Shape(cfg, c) && Reachable(cfg, c) && S.Legal(cfg, c, acts) && S.SafeRun(cfg, c, acts)
    ensures Reachable(cfg, S.Exec(cfg, c, acts))
    decreases |acts|
  {
    if acts != [] {
      ReachableGoesOn(cfg, c, acts[0]);
      SafeRunReaches(cfg, S.Next(cfg, c, acts[0]), acts[1..]);
    }
  }

  /** The hypotheses on the sizing: it is the one `InitRing` computes, with at least three blocks. */
  ghost predicate Usable(cfg: Config) {
    Sized(cfg) && cfg.blkCount >= 3
  }

  /** `a` is the log of the claims of a run that leads to `c`: the same steps, on unbounded counters. */
  ghost predicate Behind(cfg: Config, c: S.Ring, a: L.Log) {
    && cfg.modCount >= 1 && cfg.blkCount > 0
    && exists c0, acts ::
         && S.Init(cfg, c0) && S.Legal(cfg, c0, acts) && S.SafeRun(cfg, c0, acts) && S.Exec(cfg, c0, acts) == c
         && LogRun(cfg, L.InitLog(cfg, |c0.prods|), acts, a)
  }

  lemma {:induction false} LogRunUnique(cfg: Config, a: L.Log, acts: seq<Action>, a1: L.Log, a2: L.Log)
    requires L.Shape(cfg, a) && cfg.blkCount > 0
    requires LogRun(cfg, a, acts, a1) && LogRun(cfg, a, acts, a2)
    ensures a1 == a2
    decreases |acts|
  {
    if acts != [] {
      LogRunUnique(cfg, L.Next(cfg, a, acts[0]), acts[1..], a1, a2);
    }
  }

  /** Every reachable ring is a log seen through a window of one lap. */
  lemma LogOf(cfg: Config, c: S.Ring) returns (a: L.Log)
    requires Usable(cfg) && Reachable(cfg, c)
    ensures Behind(cfg, c, a) && Linked(cfg, c, a)
  {
    var c0, acts :| S.Init(cfg, c0) && S.Legal(cfg, c0, acts) && S.SafeRun(cfg, c0, acts) && S.Exec(cfg, c0, acts) == c;
    InitLinked(cfg, c0);
    a := RunRefines(cfg, c0, L.InitLog(cfg, |c0.prods|), acts);
  }

  lemma BehindLinked(cfg: Config, c: S.Ring, a: L.Log)
    requires Usable(cfg) && Behind(cfg, c, a)
    ensures Linked(cfg, c, a) && Reachable(cfg, c)
  {
    var c0, acts :| S.Init(cfg, c0) && S.Legal(cfg, c0, acts) && S.SafeRun(cfg, c0, acts) && S.Exec(cfg, c0, acts) == c
                    && LogRun(cfg, L.InitLog(cfg, |c0.prods|), acts, a);
    InitLinked(cfg, c0);
    var a' := RunRefines(cfg, c0, L.InitLog(cfg, |c0.prods|), acts);
    LogRunUnique(cfg, L.InitLog(cfg, |c0.prods|), acts, a, a');
  }

  /** How many blocks module `id` has moved past since the ring started. */
  function Moved(c: S.Ring, id: nat): int
    requires id < |c.mods|
  {
    |c.mods[id].handed| - c.mods[id].held
  }

  lemma Counters(cfg: Config, c: S.Ring, a: L.Log, id: nat)
    requires Linked(cfg, c, a) && id < cfg.modCount
    ensures Moved(c, id) == a.cursors[id].moved && |c.mods[id].handed| == a.cursors[id].handed
    ensures c.claims == |a.entries|
    ensures 0 <= Moved(c, 0) <= Moved(c, id) <= |c.mods[id].handed| <= c.claims <= Moved(c, 0) + cfg.blkCount - 2
    ensures |c.mods[0].handed| <= |c.mods[id].handed|
  {
    assert ModOk(cfg, c, a, id) && ModOk(cfg, c, a, 0);
    assert L.CursorOk(cfg, a, id) && L.CursorOk(cfg, a, 0);
    L.ChainBounds(cfg, a, id);
  }

  // --------------------------------------------------------- no overwrite

  /** The unbounded counters behind the tail and the cursors stay in the order of the chain and within
      `N - 2` of each other. */
  lemma ChainOrder(cfg: Config, c: S.Ring, i: nat, j: nat)
    requires Usable(cfg) && Reachable(cfg, c) && 1 <= i <= j < cfg.modCount
    ensures c.claims >= Moved(c, i) >= Moved(c, j) >= Moved(c, 0) >= c.claims - (cfg.blkCount - 2)
  {
    var a := LogOf(cfg, c);
    Counters(cfg, c, a, i);
    Counters(cfg, c, a, j);
    L.ChainDown(cfg, a, i, j);
  }

  /** The shared tail and cursors are those counters modulo the number of blocks. */
  lemma Positions(cfg: Config, c: S.Ring, id: nat)
    requires Usable(cfg) && Reachable(cfg, c) && id < cfg.modCount
    ensures 0 <= Moved(c, 0) <= Moved(c, id) <= c.claims <= Moved(c, 0) + cfg.blkCount - 2
    ensures c.tail == c.claims % cfg.blkCount
    ensures c.mods[id].blkPtr == Moved(c, id) % cfg.blkCount
  {
    var a := LogOf(cfg, c);
    Counters(cfg, c, a, id);
    assert ModOk(cfg, c, a, id);
    WrapIsMod(c.claims, cfg.blkCount);
    WrapIsMod(Moved(c, id), cfg.blkCount);
  }

  /** A safe claim is of the entry at the end of the log. */
  lemma ClaimIsCurrent(cfg: Config, c: S.Ring, a: L.Log, p: nat)
    requires Linked(cfg, c, a)
    requires S.Enabled(cfg, c, Cas(p, true)) && S.SafeClaim(cfg, c, Cas(p, true))
    ensures c.prods[p].pc.t == c.tail == Wrap(c.claims, cfg.blkCount)
    ensures c.claims < a.cursors[0].moved + cfg.blkCount - 2
    ensures c.claims >= cfg.blkCount ==> a.entries[c.claims - cfg.blkCount].stage == L.Freed
  {
    ClaimAllowed(cfg, c, a, p);
  }

  /** The next slot holds no block that module 0 has not moved past. */
  lemma NextSlotApart(n: nat, moved: nat, x: nat, claims: nat)
    requires n > 0 && moved <= x < claims < moved + n
    ensures x % n != Wrap(claims, n)
  {
    WrapInjective(x, claims, n);
    WrapIsMod(x, n);
  }

  /** The next slot reads as freed when its entry of the lap before was. */
  lemma NextSlotClean(cfg: Config, c: S.Ring, a: L.Log)
    requires Linked(cfg, c, a)
    requires c.claims >= cfg.blkCount ==> a.entries[c.claims - cfg.blkCount].stage == L.Freed
    ensures var t := Wrap(c.claims, cfg.blkCount);
      c.slots[t].size == 0 && c.slots[t].dataBlk == 0 && !c.slots[t].isFinal
  {
    if c.claims >= cfg.blkCount {
      var y := c.claims - cfg.blkCount;
      assert Live(cfg, a, y) && SlotOk(cfg, c, a, y);
      assert Wrap(c.claims, cfg.blkCount) == Wrap(y, cfg.blkCount);
    }
  }

  /** A claim leaves at least two slots free, and takes one that reads as freed. */
  lemma ClaimTakesFreeSlot(cfg: Config, c: S.Ring, p: nat)
    requires Usable(cfg) && Reachable(cfg, c)
    requires S.Enabled(cfg, c, Cas(p, true)) && S.SafeClaim(cfg, c, Cas(p, true))
    ensures c.claims < Moved(c, 0) + cfg.blkCount - 2
    ensures var t := c.prods[p].pc.t;
      t == c.tail && c.slots[t].size == 0 && c.slots[t].dataBlk == 0 && !c.slots[t].isFinal
  {
    var a := LogOf(cfg, c);
    Counters(cfg, c, a, 0);
    ClaimIsCurrent(cfg, c, a, p);
    NextSlotClean(cfg, c, a);
  }

  /** Without a lap, both checks would still pass. */
  lemma UnlappedPasses(cfg: Config, c: S.Ring, p: nat)
    requires Usable(cfg) && Reachable(cfg, c)
    requires S.Enabled(cfg, c, Cas(p, true)) && c.claims < c.prods[p].seen + cfg.blkCount
    ensures S.ChecksPass(cfg, c)
  {
    var a := LogOf(cfg, c);
    ClaimIsCurrent(cfg, c, a, p);
    NextSlotClean(cfg, c, a);
    LimitCheck(cfg, c, a);
  }

  /** A block that a producer holds is not at the tail. */
  lemma HeldNotTail(cfg: Config, c: S.Ring, p: nat)
    requires Usable(cfg) && Reachable(cfg, c) && p < |c.prods| && c.prods[p].pc.Holds()
    ensures c.prods[p].pc.t != c.tail < cfg.blkCount
  {
    var a := LogOf(cfg, c);
    assert ProdOk(cfg, c, a, p);
    HeldLive(cfg, a, p);
    var t := a.writers[p].pc.t;
    assert L.EntryOk(cfg, a, t);
    assert t >= a.cursors[0].moved by {
      assert L.CursorOk(cfg, a, 0);
    }
    WrapInjective(t, |a.entries|, cfg.blkCount);
  }

  /** It is not the slot of any block that some module has not moved past. */
  lemma ClaimApart(cfg: Config, c: S.Ring, id: nat, x: int)
    requires Usable(cfg) && Reachable(cfg, c)
    requires id < cfg.modCount && Moved(c, id) <= x < c.claims
    ensures x % cfg.blkCount != c.tail
  {
    var moved := Moved(c, 0);
    assert c.tail == Wrap(c.claims, cfg.blkCount) && 0 <= moved <= x && c.claims < moved + cfg.blkCount by {
      var a := LogOf(cfg, c);
      Counters(cfg, c, a, id);
    }
    NextSlotApart(cfg.blkCount, moved, x, c.claims);
  }

  // ------------------------------------------------------------- delivery

  /** The `j`-th block a module is handed is the `j`-th block claimed, as its producer published it. */
  lemma DeliveryExact(cfg: Config, c: S.Ring, a: L.Log, id: nat, j: nat)
    requires Usable(cfg) && Behind(cfg, c, a) && id < cfg.modCount && j < |c.mods[id].handed|
    ensures j < |a.entries| && a.entries[j].stage != L.Open
    ensures var h, e := c.mods[id].handed[j], a.entries[j];
      && h.dataBlk == e.dataBlk && h.isFinal == e.isFinal && h.size == e.size >= 1
      && h.blkPos == j % cfg.blkCount && h.offset == h.blkPos * cfg.capacity
  {
    BehindLinked(cfg, c, a);
    assert ModOk(cfg, c, a, id) && L.CursorOk(cfg, a, id) && L.EntryOk(cfg, a, j);
    WrapIsMod(j, cfg.blkCount);
  }

  /** Exactly once and in order: a module is handed consecutive positions from 0 on, whatever order
      the producers published in. */
  lemma InOrder(cfg: Config, c: S.Ring, id: nat, j: nat)
    requires Usable(cfg) && Reachable(cfg, c) && id < cfg.modCount && j < |c.mods[id].handed|
    ensures c.mods[id].handed[j].blkPos == j % cfg.blkCount
    ensures c.mods[id].handed[j].size >= 1
  {
    var a := LogOf(cfg, c);
    DeliveryExact(cfg, c, a, id, j);
  }

  /** Between two calls a block is there for a module exactly when the module ahead has moved past the next one
      (for the first of the chain: when it was claimed) and it is published; and it is the next one. */
  lemma NextReadyIff(cfg: Config, c: S.Ring, a: L.Log, id: nat)
    requires Usable(cfg) && Behind(cfg, c, a) && id < cfg.modCount && S.Shape(cfg, c) && c.mods[id].left == 0
    ensures var h := |c.mods[id].handed|;
      && (S.NextReady(cfg, c, id) <==> h < AheadOf(cfg, c, id) && h < |a.entries| && a.entries[h].stage != L.Open)
      && (S.NextReady(cfg, c, id) ==> S.NextPos(c, id) == h % cfg.blkCount)
  {
    BehindLinked(cfg, c, a);
    assert ModOk(cfg, c, a, id) && L.CursorOk(cfg, a, id);
    L.ChainBounds(cfg, a, id);
    AheadIs(cfg, c, a, id);
    WrapIsMod(|c.mods[id].handed|, cfg.blkCount);
    if c.mods[id].pending == [] {
      NextAtPick(cfg, c, a, id);
    } else {
      assert c.mods[id].pending[0] == Wrap(a.cursors[id].handed + 0, cfg.blkCount);
    }
  }

  lemma AheadIs(cfg: Config, c: S.Ring, a: L.Log, id: nat)
    requires Linked(cfg, c, a) && id < cfg.modCount
    ensures AheadOf(cfg, c, id) == L.Ahead(cfg, a, id)
  {
    Counters(cfg, c, a, S.DepModId(cfg, id));
  }

  lemma NextAtPick(cfg: Config, c: S.Ring, a: L.Log, id: nat)
    requires Linked(cfg, c, a) && id < cfg.modCount && c.mods[id].pending == []
    ensures var h := |c.mods[id].handed|;
      && c.mods[id].pick == Wrap(h, cfg.blkCount)
      && (S.NextReady(cfg, c, id) <==>
          h < L.Ahead(cfg, a, id) && h < |a.entries| && a.entries[h].stage != L.Open)
  {
    assert ModOk(cfg, c, a, id) && L.CursorOk(cfg, a, id);
    L.ChainBounds(cfg, a, id);
    LimitRead(cfg, c, a, id);
    WrapInjective(a.cursors[id].handed, L.Ahead(cfg, a, id), cfg.blkCount);
    if a.cursors[id].handed < L.Ahead(cfg, a, id) {
      PublishedIff(cfg, c, a, a.cursors[id].handed);
    }
  }

  /** In the last lap, and not yet handed to module 0, an entry is published exactly when its slot has a size. */
  lemma PublishedIff(cfg: Config, c: S.Ring, a: L.Log, x: nat)
    requires Linked(cfg, c, a) && Live(cfg, a, x) && x >= a.cursors[0].handed
    ensures c.slots[Wrap(x, cfg.blkCount)].size != 0 <==> a.entries[x].stage != L.Open
  {
    assert SlotOk(cfg, c, a, x) && L.EntryOk(cfg, a, x);
  }

  /** What a module was handed is a prefix of what the module before it has moved past. */
  lemma PrefixOfPredecessor(cfg: Config, c: S.Ring, id: nat)
    requires Usable(cfg) && Reachable(cfg, c) && id < cfg.modCount && id != 1 && cfg.modCount > 1
    ensures var dep := S.DepModId(cfg, id);
      |c.mods[id].handed| <= Moved(c, dep) && c.mods[id].handed <= c.mods[dep].handed
  {
    var a := LogOf(cfg, c);
    var dep := S.DepModId(cfg, id);
    Counters(cfg, c, a, dep);
    Counters(cfg, c, a, id);
    assert L.CursorOk(cfg, a, id) && ModOk(cfg, c, a, id) && ModOk(cfg, c, a, dep);
  }

  /** A block that a module was handed reads unchanged until the module moves past it; for module 0,
      until it frees it. */
  lemma StableUntilMoved(cfg: Config, c: S.Ring, id: nat, j: nat)
    requires Usable(cfg) && Reachable(cfg, c) && id < cfg.modCount && j < |c.mods[id].handed|
    requires if id == 0 then j in c.frees && c.frees[j].done == 0 else Moved(c, id) <= j
    ensures c.slots[j % cfg.blkCount] == c.mods[id].handed[j]
  {
    var a := LogOf(cfg, c);
    FullInHands(cfg, c, a, id, j);
    SlotAsHanded(cfg, c, a, id, j);
    WrapIsMod(j, cfg.blkCount);
  }

  /** A block that a module has not moved past, or that module 0 has not begun to free, is as it was published. */
  lemma FullInHands(cfg: Config, c: S.Ring, a: L.Log, id: nat, j: nat)
    requires Linked(cfg, c, a) && id < cfg.modCount && j < |c.mods[id].handed|
    requires if id == 0 then j in c.frees && c.frees[j].done == 0 else Moved(c, id) <= j
    ensures Live(cfg, a, j) && a.entries[j].stage == L.Full
  {
    InHands(cfg, c, a, id, j);
    assert FreeOk(cfg, c, a, j) && L.EntryOk(cfg, a, j);
    if id != 0 {
      HandedAheadOfZero(cfg, a, id);
      Counters(cfg, c, a, id);
    }
  }

  lemma SlotAsHanded(cfg: Config, c: S.Ring, a: L.Log, id: nat, j: nat)
    requires Linked(cfg, c, a) && id < cfg.modCount && j < |c.mods[id].handed|
    requires Live(cfg, a, j) && a.entries[j].stage == L.Full
    ensures c.slots[Wrap(j, cfg.blkCount)] == c.mods[id].handed[j]
  {
    assert SlotOk(cfg, c, a, j) && ModOk(cfg, c, a, id) && L.EntryOk(cfg, a, j);
  }

  /** A block in the hands of a module is published and in the last lap. */
  lemma InHands(cfg: Config, c: S.Ring, a: L.Log, id: nat, j: nat)
    requires Linked(cfg, c, a) && id < cfg.modCount && S.Has(c, id, j)
    ensures Live(cfg, a, j) && a.entries[j].stage != L.Open && L.Has(a, id, j)
    ensures c.mods[id].handed[j] == Published(cfg, a.entries[j], j) && 1 <= a.entries[j].size <= L.RoomAt(cfg, j)
  {
    Counters(cfg, c, a, id);
    assert ModOk(cfg, c, a, id) && L.CursorOk(cfg, a, id);
    assert L.EntryOk(cfg, a, j) && FreeOk(cfg, c, a, j);
  }

  /** Module 0 is handed only what every other module has moved past. */
  lemma HandedAheadOfZero(cfg: Config, a: L.Log, id: nat)
    requires L.Inv(cfg, a) && 1 <= id < cfg.modCount
    ensures a.cursors[0].handed <= a.cursors[id].moved
  {
    assert L.CursorOk(cfg, a, 0);
    L.ChainDown(cfg, a, id, cfg.modCount - 1);
  }

  /** Every meta of a block in the hands of a module reads as its producer stored it, with the bodies that
      modules have written since. Time and length are never written. */
  lemma MetasInHands(cfg: Config, c: S.Ring, a: L.Log, id: nat, j: nat, i: nat)
    requires Usable(cfg) && Behind(cfg, c, a) && id < cfg.modCount && S.Has(c, id, j)
    ensures j < |a.entries|
    ensures var e, k := a.entries[j], c.mods[id].handed[j].offset + i;
      && (i in e.metas ==> k < |c.pool| && MetaMatch(c.pool[k], e.metas[i], e.signal || i in e.written))
      && (i in e.written ==> k < |c.pool| && c.pool[k].body == e.written[i])
  {
    BehindLinked(cfg, c, a);
    InHands(cfg, c, a, id, j);
    assert MetasOk(cfg, c, a, j);
  }

  /** A body that no module wrote in a run is the one its producer stored. */
  lemma {:induction false} NotWritten(cfg: Config, a: L.Log, acts: seq<Action>, a': L.Log, j: nat, i: nat)
    requires L.Shape(cfg, a) && cfg.blkCount > 0 && LogRun(cfg, a, acts, a')
    requires forall n :: 0 <= n < |acts| && acts[n].WriteMeta? ==> acts[n].j != j || acts[n].idx != i
    requires j < |a.entries| ==> i !in a.entries[j].written
    ensures j < |a'.entries| ==> i !in a'.entries[j].written
    decreases |acts|
  {
    if acts != [] {
      var next := L.Next(cfg, a, acts[0]);
      assert j < |next.entries| ==> i !in next.entries[j].written;
      NotWritten(cfg, next, acts[1..], a', j, i);
    }
  }

  /** The place in the pool of a meta of a block that is published and in the last lap. */
  lemma StoreElsewhere(cfg: Config, c: S.Ring, a: L.Log, p: nat, i: nat, j: nat, i': nat)
    requires Usable(cfg) && Linked(cfg, c, a) && p < |c.prods| && c.prods[p].pc.Holds()
    requires Live(cfg, a, j) && a.entries[j].stage != L.Open && i' < L.RoomAt(cfg, j)
    requires i < Room(cfg, c.prods[p].pc.t)
    ensures c.prods[p].pc.t * cfg.capacity + i != Wrap(j, cfg.blkCount) * cfg.capacity + i'
  {
    assert ProdOk(cfg, c, a, p) && L.WriterOk(cfg, a, p);
    var x := a.writers[p].pc.t;
    assert L.EntryOk(cfg, a, x);
    LiveMetasApart(cfg, a, x, i, j, i');
  }

  /** What one step of anyone does to a meta of a block in the hands of a module: nothing, unless a module
      that has the block writes its body. */
  lemma MetaStep(cfg: Config, c: S.Ring, act: Action, id: nat, j: nat, i: nat, k: nat)
    requires Usable(cfg) && Reachable(cfg, c) && S.Enabled(cfg, c, act)
    requires id < cfg.modCount && S.Has(c, id, j) && i < c.mods[id].handed[j].size &&
        k == c.mods[id].handed[j].offset + i
    ensures k < |c.pool|
    ensures var m, m' := c.pool[k], S.Next(cfg, c, act).pool[k];
      && m'.ts == m.ts && m'.pktLen == m.pktLen
      && (m' == m || (act.WriteMeta? && act.j == j && act.idx == i && S.Has(c, act.id, j) && m'.body == act.body))
  {
    var a := LogOf(cfg, c);
    InHands(cfg, c, a, id, j);
    MetaInPool(cfg, Wrap(j, cfg.blkCount), i);
    PoolStep(cfg, c, a, act, j, i, k);
  }

  lemma PoolStep(cfg: Config, c: S.Ring, a: L.Log, act: Action, j: nat, i: nat, k: nat)
    requires Usable(cfg) && Linked(cfg, c, a) && S.Enabled(cfg, c, act)
    requires Live(cfg, a, j) && a.entries[j].stage != L.Open && i < L.RoomAt(cfg, j)
    requires k == Wrap(j, cfg.blkCount) * cfg.capacity + i < |c.pool|
    ensures var m, m' := c.pool[k], S.Next(cfg, c, act).pool[k];
      && m'.ts == m.ts && m'.pktLen == m.pktLen
      && (m' == m || (act.WriteMeta? && act.j == j && act.idx == i && S.Has(c, act.id, j) && m'.body == act.body))
  {
    if act.WriteMeta? {
      WriteElsewhere(cfg, c, a, act, j, i);
    } else if act.FillMeta? || act.SignalMeta? {
      ProducerElsewhere(cfg, c, a, act, j, i);
      ProducerStores(cfg, c, act);
    } else {
      PoolUntouched(cfg, c, act);
    }
  }

  lemma PoolUntouched(cfg: Config, c: S.Ring, act: Action)
    requires S.Shape(cfg, c) && S.Enabled(cfg, c, act) && !act.WriteMeta? && !act.FillMeta? && !act.SignalMeta?
    ensures S.Next(cfg, c, act).pool == c.pool
  {
  }

  /** A producer stores to one meta of the block it holds. */
  lemma ProducerStores(cfg: Config, c: S.Ring, act: Action)
    requires S.Shape(cfg, c) && S.Enabled(cfg, c, act) && (act.FillMeta? || act.SignalMeta?)
    ensures var k := c.slots[c.prods[act.p].pc.t].offset + if act.FillMeta? then act.idx else 0;
      forall l :: 0 <= l < |c.pool| && l != k ==> S.Next(cfg, c, act).pool[l] == c.pool[l]
  {
  }

  lemma WriteElsewhere(cfg: Config, c: S.Ring, a: L.Log, act: Action, j: nat, i: nat)
    requires Linked(cfg, c, a) && S.Enabled(cfg, c, act) && act.WriteMeta?
    requires Live(cfg, a, j) && i < L.RoomAt(cfg, j)
    ensures act.j != j || act.idx != i ==>
      c.mods[act.id].handed[act.j].offset + act.idx != Wrap(j, cfg.blkCount) * cfg.capacity + i
  {
    WriteAllowed(cfg, c, a, act);
    if act.j != j {
      LiveMetasApart(cfg, a, act.j, act.idx, j, i);
    }
  }

  lemma ProducerElsewhere(cfg: Config, c: S.Ring, a: L.Log, act: Action, j: nat, i: nat)
    requires Usable(cfg) && Linked(cfg, c, a) && S.Enabled(cfg, c, act) && (act.FillMeta? || act.SignalMeta?)
    requires Live(cfg, a, j) && a.entries[j].stage != L.Open && i < L.RoomAt(cfg, j)
    ensures c.slots[c.prods[act.p].pc.t].offset + (if act.FillMeta? then act.idx else 0) !=
      Wrap(j, cfg.blkCount) * cfg.capacity + i
  {
    FillingAllowed(cfg, c, a, act);
    assert ProdOk(cfg, c, a, act.p) && L.WriterOk(cfg, a, act.p);
    StoreElsewhere(cfg, c, a, act.p, if act.FillMeta? then act.idx else 0, j, i);
  }

  // -------------------------------------------------- assertions and moves

  /** The assertions of the claim, of `GetMeta4PktBlk` and of the signals hold on every run. */
  lemma AssertionsHold(cfg: Config, c: S.Ring, act: Action)
    requires Usable(cfg) && Reachable(cfg, c) && S.Enabled(cfg, c, act)
    ensures S.Asserts(cfg, c, act)
  {
    var a := LogOf(cfg, c);
    if L.IsFilling(act) {
      FillingAsserts(cfg, c, a, act);
    }
  }

  lemma FillingAsserts(cfg: Config, c: S.Ring, a: L.Log, act: Action)
    requires Linked(cfg, c, a) && S.Enabled(cfg, c, act) && L.IsFilling(act)
    ensures S.Asserts(cfg, c, act)
  {
    FillingAllowed(cfg, c, a, act);
    assert ProdOk(cfg, c, a, act.p) && L.WriterOk(cfg, a, act.p);
  }

  /** A claimed block comes back from `GetEmptyMetaBlk` empty, and placed in its own slot. */
  lemma EmptyBlockClean(cfg: Config, c: S.Ring, p: nat)
    requires Usable(cfg) && Reachable(cfg, c) && p < |c.prods| && c.prods[p].pc.Fresh?
    ensures var t := c.prods[p].pc.t;
      t < cfg.blkCount && c.slots[t] == Slot(0, false, t, t * cfg.capacity, 0)
  {
    var a := LogOf(cfg, c);
    assert ProdOk(cfg, c, a, p) && L.WriterOk(cfg, a, p);
    var x := a.writers[p].pc.t;
    assert L.EntryOk(cfg, a, x);
    assert Live(cfg, a, x) && SlotOk(cfg, c, a, x);
  }

  /** A module that moves only past blocks it was handed is never refused. */
  lemma MoveNeverRefused(cfg: Config, c: S.Ring, id: nat, count: nat)
    requires Usable(cfg) && Reachable(cfg, c) && S.Enabled(cfg, c, Move(id, count))
    ensures S.Move2Next(cfg, c.mods[id].blkPtr, S.LimPtr(cfg, c, id), count)
         == Some((Moved(c, id) + count) % cfg.blkCount)
  {
    var a := LogOf(cfg, c);
    MoveAllowed(cfg, c, a, id, count);
    WrapIsMod(Moved(c, id) + count, cfg.blkCount);
  }

  lemma MoveAllowed(cfg: Config, c: S.Ring, a: L.Log, id: nat, count: nat)
    requires Linked(cfg, c, a) && S.Enabled(cfg, c, Move(id, count))
    ensures 0 <= Moved(c, id)
    ensures S.Move2Next(cfg, c.mods[id].blkPtr, S.LimPtr(cfg, c, id), count)
         == Some(Wrap(Moved(c, id) + count, cfg.blkCount))
  {
    Counters(cfg, c, a, id);
    MoveResult(cfg, c, a, id, count);
    assert ModOk(cfg, c, a, id) && L.CursorOk(cfg, a, id);
    L.ChainBounds(cfg, a, id);
  }

  /** `Move2NextMetaBlk` on the shared positions, in terms of the counters. */
  lemma MoveResult(cfg: Config, c: S.Ring, a: L.Log, id: nat, count: nat)
    requires Linked(cfg, c, a) && id < cfg.modCount
    ensures S.Move2Next(cfg, c.mods[id].blkPtr, S.LimPtr(cfg, c, id), count)
         == if a.cursors[id].moved + count <= L.Ahead(cfg, a, id)
            then Some(Wrap(a.cursors[id].moved + count, cfg.blkCount)) else None
  {
    assert ModOk(cfg, c, a, id);
    L.ChainBounds(cfg, a, id);
    LimitRead(cfg, c, a, id);
    MoveExact(cfg, a.cursors[id].moved, L.Ahead(cfg, a, id), count);
  }

  /** What a module's cursor is limited by, as a counter. */
  function AheadOf(cfg: Config, c: S.Ring, id: nat): int
    requires S.Shape(cfg, c) && id < cfg.modCount
  {
    var dep := S.DepModId(cfg, id);
    if id == 1 || id == dep then c.claims else Moved(c, dep)
  }

  /** Any caller: the move is accepted exactly when the counter plus the count does not pass the limit. */
  lemma MoveAcceptedIff(cfg: Config, c: S.Ring, id: nat, count: nat)
    requires Usable(cfg) && Reachable(cfg, c) && id < cfg.modCount
    ensures S.Move2Next(cfg, c.mods[id].blkPtr, S.LimPtr(cfg, c, id), count).Some?
       <==> Moved(c, id) + count <= AheadOf(cfg, c, id)
  {
    var a := LogOf(cfg, c);
    MoveDecides(cfg, c, a, id, count);
  }

  lemma MoveDecides(cfg: Config, c: S.Ring, a: L.Log, id: nat, count: nat)
    requires Linked(cfg, c, a) && id < cfg.modCount
    ensures S.Move2Next(cfg, c.mods[id].blkPtr, S.LimPtr(cfg, c, id), count).Some?
       <==> Moved(c, id) + count <= AheadOf(cfg, c, id)
  {
    MoveResult(cfg, c, a, id, count);
    AheadCounted(cfg, c, a, id);
  }

  lemma AheadCounted(cfg: Config, c: S.Ring, a: L.Log, id: nat)
    requires Linked(cfg, c, a) && id < cfg.modCount
    ensures AheadOf(cfg, c, id) == L.Ahead(cfg, a, id) && Moved(c, id) == a.cursors[id].moved
  {
    Counters(cfg, c, a, id);
    Counters(cfg, c, a, S.DepModId(cfg, id));
  }

  /** `IsRingEmpty` holds exactly when module 0 has moved past everything claimed. */
  lemma EmptyIff(cfg: Config, c: S.Ring)
    requires Usable(cfg) && Reachable(cfg, c)
    ensures S.IsRingEmpty(cfg, c) <==> Moved(c, 0) == c.claims
  {
    var a := LogOf(cfg, c);
    Counters(cfg, c, a, 0);
    assert ModOk(cfg, c, a, 0);
    SmallMod(c.tail, cfg.blkCount);
    WrapInjective(Moved(c, 0), c.claims, cfg.blkCount);
  }

  // ----------------------------------------------------- meta exclusivity

  /** The producer has claimed a block and been handed meta `i` of it. */
  predicate HandedOut(c: S.Ring, p: nat, i: nat) {
    p < |c.prods| && (c.prods[p].pc.Filling? || c.prods[p].pc.Sealed?) && i < c.prods[p].pc.used
    && c.prods[p].pc.t < |c.slots|
  }

  /** The index that `GetMeta4PktBlk` handed out. */
  function MetaIndex(c: S.Ring, p: nat, i: nat): nat
    requires HandedOut(c, p, i)
  {
    c.slots[c.prods[p].pc.t].offset + i
  }

  lemma HeldEntry(cfg: Config, c: S.Ring, a: L.Log, p: nat, i: nat) returns (x: nat)
    requires Usable(cfg) && Linked(cfg, c, a) && HandedOut(c, p, i)
    ensures Live(cfg, a, x) && a.entries[x].stage == L.Open && a.entries[x].owner == p
    ensures c.prods[p].pc.t == Wrap(x, cfg.blkCount)
    ensures MetaIndex(c, p, i) == Wrap(x, cfg.blkCount) * cfg.capacity + i && i < L.RoomAt(cfg, x)
    ensures c.slots[c.prods[p].pc.t].size == 0
  {
    assert ProdOk(cfg, c, a, p) && L.WriterOk(cfg, a, p);
    x := a.writers[p].pc.t;
    assert L.EntryOk(cfg, a, x);
    assert Live(cfg, a, x) && SlotOk(cfg, c, a, x);
  }

  /** A meta that was handed out lies in the pool, and two producers never hold the same one. */
  lemma MetaExclusive(cfg: Config, c: S.Ring, p: nat, i: nat, q: nat, i': nat)
    requires Usable(cfg) && Reachable(cfg, c) && p != q
    requires HandedOut(c, p, i) && HandedOut(c, q, i')
    ensures MetaIndex(c, p, i) < cfg.metaTotal
    ensures MetaIndex(c, p, i) != MetaIndex(c, q, i')
  {
    var a := LogOf(cfg, c);
    var x := HeldEntry(cfg, c, a, p, i);
    var y := HeldEntry(cfg, c, a, q, i');
    LiveMetasApart(cfg, a, x, i, y, i');
    MetaInPool(cfg, Wrap(x, cfg.blkCount), i);
  }

  /** A meta that was handed out belongs to no published block that some module has not moved past, or that
      module 0 has not freed: no index is handed out again before that. */
  lemma MetaNotReused(cfg: Config, c: S.Ring, a: L.Log, p: nat, i: nat, j: nat, i': nat)
    requires Usable(cfg) && Behind(cfg, c, a) && HandedOut(c, p, i)
    requires j < |a.entries| && a.entries[j].stage != L.Open && i' < a.entries[j].size
    requires Moved(c, 0) <= j || a.entries[j].stage != L.Freed
    ensures MetaIndex(c, p, i) != (j % cfg.blkCount) * cfg.capacity + i'
  {
    BehindLinked(cfg, c, a);
    var x := HeldEntry(cfg, c, a, p, i);
    Counters(cfg, c, a, 0);
    assert L.EntryOk(cfg, a, j);
    assert Live(cfg, a, j);
    LiveMetasApart(cfg, a, x, i, j, i');
    WrapIsMod(j, cfg.blkCount);
  }

  /** A module never writes to a meta that a producer holds. */
  lemma WriteMissesProducers(cfg: Config, c: S.Ring, act: Action, p: nat, i: nat)
    requires Usable(cfg) && Reachable(cfg, c) && HandedOut(c, p, i) && S.Enabled(cfg, c, act) && act.WriteMeta?
    ensures c.mods[act.id].handed[act.j].offset + act.idx < cfg.metaTotal
    ensures c.mods[act.id].handed[act.j].offset + act.idx != MetaIndex(c, p, i)
  {
    var a := LogOf(cfg, c);
    WriteAllowed(cfg, c, a, act);
    var x := HeldEntry(cfg, c, a, p, i);
    LiveMetasApart(cfg, a, x, i, act.j, act.idx);
  }

  /** An open entry is picked by no module, */
  lemma OpenNotPending(cfg: Config, c: S.Ring, a: L.Log, x: nat, id: nat)
    requires Linked(cfg, c, a) && Live(cfg, a, x) && a.entries[x].stage == L.Open && id < cfg.modCount
    ensures Wrap(x, cfg.blkCount) !in c.mods[id].pending
  {
    assert ModOk(cfg, c, a, id) && L.CursorOk(cfg, a, id);
    L.ChainBounds(cfg, a, id);
    var k, m := a.cursors[id], c.mods[id];
    forall y | 0 <= y < |m.pending| ensures m.pending[y] != Wrap(x, cfg.blkCount) {
      assert Live(cfg, a, k.handed + y);
      LiveApart(cfg, a, k.handed + y, x);
    }
  }

  /** and its slot is none of those a module was handed and has not moved past. */
  lemma OpenNotHanded(cfg: Config, c: S.Ring, a: L.Log, x: nat, id: nat)
    requires Linked(cfg, c, a) && Live(cfg, a, x) && a.entries[x].stage == L.Open && id < cfg.modCount
    ensures forall j :: Moved(c, id) <= j < |c.mods[id].handed| ==> j % cfg.blkCount != Wrap(x, cfg.blkCount)
  {
    Counters(cfg, c, a, id);
    assert L.CursorOk(cfg, a, id);
    forall j | Moved(c, id) <= j < |c.mods[id].handed| ensures j % cfg.blkCount != Wrap(x, cfg.blkCount) {
      assert Live(cfg, a, j);
      LiveApart(cfg, a, j, x);
      WrapIsMod(j, cfg.blkCount);
    }
  }

  /** Until it is published, a held block is on no module's list and reads as not ready. */
  lemma HeldBlockInvisible(cfg: Config, c: S.Ring, p: nat, i: nat, id: nat)
    requires Usable(cfg) && Reachable(cfg, c) && HandedOut(c, p, i) && id < cfg.modCount
    ensures c.slots[c.prods[p].pc.t].size == 0
    ensures c.prods[p].pc.t !in c.mods[id].pending
    ensures forall j :: Moved(c, id) <= j < |c.mods[id].handed| ==> j % cfg.blkCount != c.prods[p].pc.t
  {
    var a := LogOf(cfg, c);
    var x := HeldEntry(cfg, c, a, p, i);
    OpenNotPending(cfg, c, a, x, id);
    OpenNotHanded(cfg, c, a, x, id);
  }

  /** Between calls a held block has at least one meta handed out and no more than it has room for. */
  lemma UsedWithinCapacity(cfg: Config, c: S.Ring, p: nat, i: nat)
    requires Usable(cfg) && Reachable(cfg, c) && HandedOut(c, p, i)
    ensures var capacity := Capacity(cfg, c.slots[c.prods[p].pc.t].offset);
      1 <= c.prods[p].pc.used <= if capacity > 1 then capacity else 1
  {
    var a := LogOf(cfg, c);
    var x := HeldEntry(cfg, c, a, p, i);
    UsedFits(cfg, c, a, p);
  }

  lemma UsedFits(cfg: Config, c: S.Ring, a: L.Log, p: nat)
    requires Linked(cfg, c, a) && p < |c.prods| && (c.prods[p].pc.Filling? || c.prods[p].pc.Sealed?)
    ensures c.prods[p].pc.used <= Room(cfg, c.prods[p].pc.t)
  {
    assert ProdOk(cfg, c, a, p) && L.WriterOk(cfg, a, p);
  }

  // -------------------------------------------------------------- signals

  /** Until the module moves past it, or module 0 frees it, a handed block is taken for a stop signal exactly
      when it was published as a final single meta without a data block, with time and length 0; likewise
      for timeouts. */
  lemma SignalsRecognised(cfg: Config, c: S.Ring, a: L.Log, id: nat, j: nat)
    requires Usable(cfg) && Behind(cfg, c, a) && id < cfg.modCount && j < |c.mods[id].handed|
    requires if id == 0 then j in c.frees && c.frees[j].done == 0 else Moved(c, id) <= j
    requires j < |a.entries| && 0 in a.entries[j].metas
    ensures var e, m0 := a.entries[j], a.entries[j].metas[0];
      var plain := e.dataBlk == 0 && e.isFinal && e.size == 1 && m0.pktLen == 0;
      && (S.IsStopSignal(cfg, c, j % cfg.blkCount) <==> plain && m0.ts == 0)
      && (S.IsTimeoutSignal(cfg, c, j % cfg.blkCount) <==> plain && m0.ts != 0)
  {
    BehindLinked(cfg, c, a);
    StableUntilMoved(cfg, c, id, j);
    MetasInHands(cfg, c, a, id, j, 0);
    InHands(cfg, c, a, id, j);
  }

  /** A block sent by `SendStopSignal` or `SendTimeoutSignal` is recognised by whoever is handed it,
      and as the right one of the two. */
  lemma SentSignalRecognised(cfg: Config, c: S.Ring, a: L.Log, id: nat, j: nat)
    requires Usable(cfg) && Behind(cfg, c, a) && id < cfg.modCount && j < |c.mods[id].handed|
    requires if id == 0 then j in c.frees && c.frees[j].done == 0 else Moved(c, id) <= j
    requires j < |a.entries| && a.entries[j].signal
    ensures 0 in a.entries[j].metas
    ensures S.IsStopSignal(cfg, c, j % cfg.blkCount) <==> a.entries[j].metas[0].ts == 0
    ensures S.IsTimeoutSignal(cfg, c, j % cfg.blkCount) <==> a.entries[j].metas[0].ts != 0
  {
    BehindLinked(cfg, c, a);
    InHands(cfg, c, a, id, j);
    assert L.EntryOk(cfg, a, j);
    SignalsRecognised(cfg, c, a, id, j);
  }

  /** If the stop signal is the last block claimed, a module that is handed it has been handed every
      other block before it. */
  lemma StopIsLast(cfg: Config, c: S.Ring, a: L.Log, id: nat, j: nat)
    requires Usable(cfg) && Behind(cfg, c, a) && id < cfg.modCount
    requires j < |c.mods[id].handed| && j + 1 == |a.entries|
    ensures |c.mods[id].handed| == |a.entries|
    ensures forall x :: 0 <= x < j ==>
      a.entries[x].stage != L.Open && c.mods[id].handed[x] == Published(cfg, a.entries[x], x)
  {
    BehindLinked(cfg, c, a);
    Counters(cfg, c, a, id);
    assert ModOk(cfg, c, a, id) && L.CursorOk(cfg, a, id);
  }
}
