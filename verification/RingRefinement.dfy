/** The modular ring refines the log: every step it takes, with the tail, the cursors and the slots
    reused lap after lap, is the log's step on unbounded counters. */
module RingRefinement {
  import opened RingTypes
  import opened RingGeometry
  import opened Modular
  import S = RingSteps
  import L = RingLog
  import I = RingLogInvariant

  /** A claim number as the ring sees it. */
  function Lower(pc: Pc, n: nat): Pc
    requires n > 0
  {
    match pc
    case Idle => Idle
    case TailRead(t) => TailRead(Wrap(t, n))
    case LimitOk(t) => LimitOk(Wrap(t, n))
    case SizeOk(t) => SizeOk(Wrap(t, n))
    case Won(t) => Won(Wrap(t, n))
    case Marked(t) => Marked(Wrap(t, n))
    case Fresh(t) => Fresh(Wrap(t, n))
    case Filling(t, used, data, signal) => Filling(Wrap(t, n), used, data, signal)
    case Sealed(t, used, data, signal) => Sealed(Wrap(t, n), used, data, signal)
  }

  /** What the slot of entry `x` holds while no later claim has taken the slot. */
  function SlotOf(cfg: Config, e: L.Entry, x: nat): Slot
    requires cfg.blkCount > 0
  {
    var s := Wrap(x, cfg.blkCount);
    Slot(if e.stage == L.NoData || e.stage == L.Freed then 0 else e.dataBlk,
         e.isFinal && (e.stage == L.Open || e.stage == L.Full),
         if e.marked || x >= cfg.blkCount then s else 0,
         if e.placed || x >= cfg.blkCount then s * cfg.capacity else 0,
         if e.stage == L.Open || e.stage == L.Freed then 0 else e.size)
  }

  /** What a module sees of a published entry. */
  function Published(cfg: Config, e: L.Entry, x: nat): Slot
    requires cfg.blkCount > 0
  {
    var s := Wrap(x, cfg.blkCount);
    Slot(e.dataBlk, e.isFinal, s, s * cfg.capacity, e.size)
  }

  /** A meta as its producer stored it, except for its body where that is `free`. */
  ghost predicate MetaMatch(m: Meta, e: Meta, free: bool) {
    m.ts == e.ts && m.pktLen == e.pktLen && (free || m.body == e.body)
  }

  /** The metas of an entry, in the pool from `base` on: as its producer stored them, but for the bodies that
      modules have written since. The body of a signal is left as it was. */
  ghost predicate PoolOk(pool: seq<Meta>, e: L.Entry, base: nat) {
    && (forall i :: i in e.metas ==>
         base + i < |pool| && MetaMatch(pool[base + i], e.metas[i], e.signal || i in e.written))
    && (forall i :: i in e.written ==> base + i < |pool| && pool[base + i].body == e.written[i])
  }

  ghost predicate ShapeOk(cfg: Config, c: S.Ring, a: L.Log) {
    && S.Shape(cfg, c) && L.Shape(cfg, a)
    && |c.prods| == |a.writers|
    && c.claims == |a.entries|
    && c.tail == Wrap(|a.entries|, cfg.blkCount)
  }

  /** A module's positions and its pending list are its counters. */
  ghost predicate CursorMatch(m: S.Module, k: L.Cursor, n: nat)
    requires n > 0
  {
    && m.blkPtr == Wrap(k.moved, n) && m.pick == Wrap(k.picked, n) && m.left == k.left
    && m.held == k.handed - k.moved
    && |m.pending| == k.picked - k.handed
    && (forall i :: 0 <= i < |m.pending| ==> m.pending[i] == Wrap(k.handed + i, n))
  }

  ghost predicate ModOk(cfg: Config, c: S.Ring, a: L.Log, id: nat)
    requires ShapeOk(cfg, c, a) && id < cfg.modCount
  {
    var m, k := c.mods[id], a.cursors[id];
    && CursorMatch(m, k, cfg.blkCount)
    && |m.handed| == k.handed <= |a.entries|
    && (forall j :: 0 <= j < |m.handed| ==> m.handed[j] == Published(cfg, a.entries[j], j))
  }

  ghost predicate ProdOk(cfg: Config, c: S.Ring, a: L.Log, p: nat)
    requires ShapeOk(cfg, c, a) && p < |a.writers|
  {
    && c.prods[p].pc == Lower(a.writers[p].pc, cfg.blkCount)
    && (a.writers[p].pc.Trying() ==> c.prods[p].seen == a.writers[p].pc.t)
  }

  /** Entry `x` is in the last lap: its slot is still its own. */
  predicate Live(cfg: Config, a: L.Log, x: int) {
    0 <= x < |a.entries| <= x + cfg.blkCount
  }

  ghost predicate SlotOk(cfg: Config, c: S.Ring, a: L.Log, x: nat)
    requires ShapeOk(cfg, c, a) && Live(cfg, a, x)
  {
    c.slots[Wrap(x, cfg.blkCount)] == SlotOf(cfg, a.entries[x], x)
  }

  ghost predicate MetasOk(cfg: Config, c: S.Ring, a: L.Log, x: nat)
    requires ShapeOk(cfg, c, a) && Live(cfg, a, x)
  {
    PoolOk(c.pool, a.entries[x], Wrap(x, cfg.blkCount) * cfg.capacity)
  }

  /** How many of the three stores that free a block are done at a stage. */
  function DoneAt(stage: L.Stage): nat {
    if stage == L.Full then 0 else if stage == L.NoFinal then 1 else 2
  }

  /** Module 0 is freeing exactly the entries it was handed that are not freed. */
  ghost predicate FreeOk(cfg: Config, c: S.Ring, a: L.Log, j: nat)
    requires ShapeOk(cfg, c, a) && j < |a.entries|
  {
    var stage := a.entries[j].stage;
    && (j in c.frees <==> j < a.cursors[0].handed && (stage == L.Full || stage == L.NoFinal || stage == L.NoData))
    && (j in c.frees ==> c.frees[j] == Freeing(Wrap(j, cfg.blkCount), DoneAt(stage)))
  }

  ghost predicate Refines(cfg: Config, c: S.Ring, a: L.Log) {
    && Sized(cfg)
    && ShapeOk(cfg, c, a)
    && (forall id :: 0 <= id < cfg.modCount ==> ModOk(cfg, c, a, id))
    && (forall p :: 0 <= p < |a.writers| ==> ProdOk(cfg, c, a, p))
    && (forall x {:trigger Live(cfg, a, x)} :: Live(cfg, a, x) ==> SlotOk(cfg, c, a, x) && MetasOk(cfg, c, a, x))
    && (forall s :: |a.entries| <= s < cfg.blkCount ==> c.slots[s] == ZERO_SLOT)
    && (forall j :: 0 <= j < |a.entries| ==> FreeOk(cfg, c, a, j))
    && (forall j :: j in c.frees ==> j < |a.entries|)
  }

  /** The two layers agree, and the specification's invariant holds. */
  ghost predicate Linked(cfg: Config, c: S.Ring, a: L.Log) {
    Refines(cfg, c, a) && L.Inv(cfg, a)
  }

  lemma InitLinked(cfg: Config, c: S.Ring)
    requires Sized(cfg) && cfg.blkCount >= 3 && S.Init(cfg, c)
    ensures Linked(cfg, c, L.InitLog(cfg, |c.prods|))
  {
    L.InitInv(cfg, |c.prods|);
  }

  // ---------------------------------------------------------------- slots

  /** The slot of a live entry belongs to no other live entry. */
  lemma LiveApart(cfg: Config, a: L.Log, x: nat, y: nat)
    requires cfg.blkCount > 0 && Live(cfg, a, x) && Live(cfg, a, y) && x != y
    ensures Wrap(x, cfg.blkCount) != Wrap(y, cfg.blkCount)
  {
    WrapInjective(x, y, cfg.blkCount);
  }

  /** Rewriting the slot of one live entry, and that entry to match, keeps every other slot's match. */
  lemma SlotUpdate(cfg: Config, c: S.Ring, a: L.Log, c': S.Ring, a': L.Log, t: nat)
    requires Refines(cfg, c, a) && ShapeOk(cfg, c', a') && Live(cfg, a, t)
    requires |a'.entries| == |a.entries| && a'.entries == a.entries[t := a'.entries[t]]
    requires c'.slots == c.slots[Wrap(t, cfg.blkCount) := SlotOf(cfg, a'.entries[t], t)]
    ensures forall x {:trigger Live(cfg, a', x)} :: Live(cfg, a', x) ==> SlotOk(cfg, c', a', x)
    ensures forall s :: |a'.entries| <= s < cfg.blkCount ==> c'.slots[s] == ZERO_SLOT
  {
    forall x {:trigger Live(cfg, a', x)} | Live(cfg, a', x) ensures SlotOk(cfg, c', a', x) {
      assert Live(cfg, a, x);
      if x != t {
        LiveApart(cfg, a, x, t);
      }
    }
    assert t < cfg.blkCount ==> Wrap(t, cfg.blkCount) == t;
  }

  /** Metas that are left alone keep matching. */
  lemma MetasKept(cfg: Config, c: S.Ring, a: L.Log, c': S.Ring, a': L.Log)
    requires Refines(cfg, c, a) && ShapeOk(cfg, c', a') && c'.pool == c.pool
    requires |a'.entries| == |a.entries|
    requires forall x :: 0 <= x < |a.entries| ==> a'.entries[x].metas == a.entries[x].metas
    requires forall x :: 0 <= x < |a.entries| ==> a'.entries[x].written == a.entries[x].written
    requires forall x :: 0 <= x < |a.entries| ==> a'.entries[x].signal == a.entries[x].signal
    ensures forall x {:trigger Live(cfg, a', x)} :: Live(cfg, a', x) ==> MetasOk(cfg, c', a', x)
  {
    forall x {:trigger Live(cfg, a', x)} | Live(cfg, a', x) ensures MetasOk(cfg, c', a', x) {
      assert Live(cfg, a, x);
    }
  }

  lemma KeysApart(cfg: Config, a: L.Log, t: nat, i: nat, x: nat, keys: set<nat>)
    requires Sized(cfg) && Live(cfg, a, t) && Live(cfg, a, x) && x != t && i < L.RoomAt(cfg, t)
    requires forall i' :: i' in keys ==> i' < L.RoomAt(cfg, x)
    ensures forall i' :: i' in keys ==>
      Wrap(x, cfg.blkCount) * cfg.capacity + i' != Wrap(t, cfg.blkCount) * cfg.capacity + i
  {
    forall i' | i' in keys
      ensures Wrap(x, cfg.blkCount) * cfg.capacity + i' != Wrap(t, cfg.blkCount) * cfg.capacity + i
    {
      LiveMetasApart(cfg, a, x, i', t, i);
    }
  }

  /** A store to meta `i` of entry `t` leaves the metas of entry `x` alone. */
  lemma StoreApart(cfg: Config, a: L.Log, pool: seq<Meta>, t: nat, i: nat, m: Meta, x: nat, base: nat, k: nat)
    requires Sized(cfg) && Live(cfg, a, t) && Live(cfg, a, x) && x != t && i < L.RoomAt(cfg, t)
    requires base == Wrap(x, cfg.blkCount) * cfg.capacity && k == Wrap(t, cfg.blkCount) * cfg.capacity + i < |pool|
    requires PoolOk(pool, a.entries[x], base)
    requires forall i' :: i' in a.entries[x].metas ==> i' < L.RoomAt(cfg, x)
    requires forall i' :: i' in a.entries[x].written ==> i' < L.RoomAt(cfg, x)
    ensures PoolOk(pool[k := m], a.entries[x], base)
  {
    KeysApart(cfg, a, t, i, x, a.entries[x].metas.Keys);
    KeysApart(cfg, a, t, i, x, a.entries[x].written.Keys);
    StoreForeign(pool, a.entries[x], base, k, m);
  }

  lemma StoreForeign(pool: seq<Meta>, e: L.Entry, base: nat, k: nat, m: Meta)
    requires PoolOk(pool, e, base) && k < |pool|
    requires forall i :: i in e.metas ==> base + i != k
    requires forall i :: i in e.written ==> base + i != k
    ensures PoolOk(pool[k := m], e, base)
  {
  }

  /** A producer's store to a meta of the entry it holds. */
  lemma StoreOwn(pool: seq<Meta>, e: L.Entry, e': L.Entry, base: nat, i: nat, m: Meta)
    requires PoolOk(pool, e, base) && base + i < |pool| && e.written == e'.written == map[]
    requires i in e'.metas && e'.metas == e.metas[i := e'.metas[i]] && MetaMatch(m, e'.metas[i], e'.signal)
    requires e'.signal == e.signal || e.metas == map[]
    ensures PoolOk(pool[base + i := m], e', base)
  {
  }

  /** A module's store to a body. */
  lemma StoreBody(pool: seq<Meta>, e: L.Entry, base: nat, i: nat, body: nat)
    requires PoolOk(pool, e, base) && base + i < |pool|
    ensures PoolOk(pool[base + i := pool[base + i].(body := body)], e.(written := e.written[i := body]), base)
  {
  }

  lemma OtherKept(cfg: Config, c: S.Ring, a: L.Log, c': S.Ring, a': L.Log, t: nat, i: nat, m: Meta, x: nat, k: nat,
                  base: nat)
    requires Sized(cfg) && ShapeOk(cfg, c, a) && ShapeOk(cfg, c', a') && Live(cfg, a, t) && Live(cfg, a, x) && x != t
    requires Live(cfg, a', x) && a'.entries[x] == a.entries[x] && i < L.RoomAt(cfg, t)
    requires L.EntryOk(cfg, a, x) && MetasOk(cfg, c, a, x)
    requires base == Wrap(x, cfg.blkCount) * cfg.capacity
    requires k == Wrap(t, cfg.blkCount) * cfg.capacity + i < |c.pool| && c'.pool == c.pool[k := m]
    ensures MetasOk(cfg, c', a', x)
  {
    StoreApart(cfg, a, c.pool, t, i, m, x, base, k);
  }

  /** Storing one meta of a live entry keeps the metas of all entries. */
  lemma MetaUpdate(cfg: Config, c: S.Ring, a: L.Log, c': S.Ring, a': L.Log, t: nat, i: nat, m: Meta, k: nat)
    requires Linked(cfg, c, a) && ShapeOk(cfg, c', a') && Live(cfg, a, t) && i < L.RoomAt(cfg, t)
    requires |a'.entries| == |a.entries| && a'.entries == a.entries[t := a'.entries[t]]
    requires k == Wrap(t, cfg.blkCount) * cfg.capacity + i < |c.pool| && c'.pool == c.pool[k := m]
    requires MetasOk(cfg, c', a', t)
    ensures forall x {:trigger Live(cfg, a', x)} :: Live(cfg, a', x) ==> MetasOk(cfg, c', a', x)
  {
    forall x {:trigger Live(cfg, a', x)} | Live(cfg, a', x) ensures MetasOk(cfg, c', a', x) {
      if x != t {
        LiveFacts(cfg, c, a, x);
        OtherKept(cfg, c, a, c', a', t, i, m, x, k, Wrap(x, cfg.blkCount) * cfg.capacity);
      }
    }
  }

  lemma LiveFacts(cfg: Config, c: S.Ring, a: L.Log, x: nat)
    requires Linked(cfg, c, a) && Live(cfg, a, x)
    ensures MetasOk(cfg, c, a, x) && L.EntryOk(cfg, a, x)
  {
  }

  /** Live entries never share a meta. */
  lemma LiveMetasApart(cfg: Config, a: L.Log, x: nat, i: nat, y: nat, j: nat)
    requires Sized(cfg) && Live(cfg, a, x) && Live(cfg, a, y) && x != y
    requires i < L.RoomAt(cfg, x) && j < L.RoomAt(cfg, y)
    ensures Wrap(x, cfg.blkCount) * cfg.capacity + i != Wrap(y, cfg.blkCount) * cfg.capacity + j
  {
    LiveApart(cfg, a, x, y);
    MetaInPool(cfg, Wrap(x, cfg.blkCount), i);
    MetaInPool(cfg, Wrap(y, cfg.blkCount), j);
    MetaDisjoint(cfg, Wrap(x, cfg.blkCount), i, Wrap(y, cfg.blkCount), j);
  }

  // ------------------------------------------------------ claiming a block

  /** What a passed check means for a producer whose tail read is still current. */
  lemma ReadsAllowed(cfg: Config, c: S.Ring, a: L.Log, act: Action)
    requires Linked(cfg, c, a) && S.Enabled(cfg, c, act)
    requires act.ReadTail? || act.ReadLimit? || act.ReadSize? || (act.Cas? && !act.ok)
    ensures L.Enabled(cfg, a, act)
  {
    var n, end, p := cfg.blkCount, |a.entries|, act.p;
    assert ProdOk(cfg, c, a, p) && L.WriterOk(cfg, a, p) && ModOk(cfg, c, a, 0);
    if act.ReadLimit? && act.ok && a.writers[p].pc.t == end {
      LimitCheck(cfg, c, a);
    } else if act.ReadSize? && act.ok && a.writers[p].pc.t == end && end >= n {
      PreviousLapFreed(cfg, c, a);
    }
  }

  /** The limit check of `GetEmptyMetaBlk` on a current tail says that a claim keeps the distance. */
  lemma LimitCheck(cfg: Config, c: S.Ring, a: L.Log)
    requires Linked(cfg, c, a)
    ensures (c.tail + 2) % cfg.blkCount != c.mods[0].blkPtr <==> |a.entries| + 3 <= a.cursors[0].moved + cfg.blkCount
  {
    var n, end := cfg.blkCount, |a.entries|;
    assert ModOk(cfg, c, a, 0);
    L.ChainBounds(cfg, a, 0);
    WrapAdd(end, 2, n);
    SmallMod(c.tail + 2, n);
    WrapInjective(end + 2, a.cursors[0].moved + n, n);
    assert Wrap(a.cursors[0].moved + n, n) == Wrap(a.cursors[0].moved, n);
  }

  /** A claiming step that changes nothing but the producer. */
  lemma ReadEffect(cfg: Config, c: S.Ring, a: L.Log, act: Action)
    requires ShapeOk(cfg, c, a) && cfg.blkCount > 0 && S.Enabled(cfg, c, act) && L.Enabled(cfg, a, act)
    requires act.ReadTail? || act.ReadLimit? || act.ReadSize? || (act.Cas? && !act.ok)
    requires ProdOk(cfg, c, a, act.p)
    ensures var c', a' := S.Next(cfg, c, act), L.Next(cfg, a, act);
      && c' == c.(prods := c.prods[act.p := c'.prods[act.p]])
      && a' == a.(writers := a.writers[act.p := a'.writers[act.p]])
      && ShapeOk(cfg, c', a') && ProdOk(cfg, c', a', act.p)
  {
    SmallMod(c.tail, cfg.blkCount);
  }

  lemma SimReads(cfg: Config, c: S.Ring, a: L.Log, act: Action)
    requires Linked(cfg, c, a) && S.Enabled(cfg, c, act)
    requires act.ReadTail? || act.ReadLimit? || act.ReadSize? || (act.Cas? && !act.ok)
    ensures L.Enabled(cfg, a, act)
    ensures Refines(cfg, S.Next(cfg, c, act), L.Next(cfg, a, act))
  {
    ReadsAllowed(cfg, c, a, act);
    var c', a' := S.Next(cfg, c, act), L.Next(cfg, a, act);
    assert ProdOk(cfg, c, a, act.p);
    ReadEffect(cfg, c, a, act);
    Unshared(cfg, c, a, c', a');
    forall q | 0 <= q < |a'.writers| ensures ProdOk(cfg, c', a', q) {
      assert ProdOk(cfg, c, a, q);
    }
  }

  /** A step that leaves the entries, the cursors and all shared memory alone. */
  lemma Unshared(cfg: Config, c: S.Ring, a: L.Log, c': S.Ring, a': L.Log)
    requires Refines(cfg, c, a) && ShapeOk(cfg, c', a')
    requires a'.entries == a.entries && a'.cursors == a.cursors
    requires c'.slots == c.slots && c'.pool == c.pool && c'.mods == c.mods && c'.frees == c.frees
    ensures forall id :: 0 <= id < cfg.modCount ==> ModOk(cfg, c', a', id)
    ensures forall x {:trigger Live(cfg, a', x)} :: Live(cfg, a', x) ==>
      SlotOk(cfg, c', a', x) && MetasOk(cfg, c', a', x)
    ensures forall s :: |a'.entries| <= s < cfg.blkCount ==> c'.slots[s] == ZERO_SLOT
    ensures forall j :: 0 <= j < |a'.entries| ==> FreeOk(cfg, c', a', j)
  {
    forall id | 0 <= id < cfg.modCount ensures ModOk(cfg, c', a', id) {
      assert ModOk(cfg, c, a, id);
    }
    forall x {:trigger Live(cfg, a', x)} | Live(cfg, a', x) ensures SlotOk(cfg, c', a', x) && MetasOk(cfg, c', a', x) {
      assert Live(cfg, a, x);
    }
    forall j | 0 <= j < |a'.entries| ensures FreeOk(cfg, c', a', j) {
      assert FreeOk(cfg, c, a, j);
    }
  }

  /** When the limit check has passed and the next slot reads size 0, the entry a lap earlier has been
      freed: module 0 has moved past it, so it was published, and only freeing resets its size. */
  lemma PreviousLapFreed(cfg: Config, c: S.Ring, a: L.Log)
    requires Linked(cfg, c, a)
    requires |a.entries| >= cfg.blkCount && |a.entries| + 3 <= a.cursors[0].moved + cfg.blkCount
    requires c.slots[Wrap(|a.entries|, cfg.blkCount)].size == 0
    ensures a.entries[|a.entries| - cfg.blkCount].stage == L.Freed
  {
    var x := |a.entries| - cfg.blkCount;
    assert Live(cfg, a, x) && Wrap(|a.entries|, cfg.blkCount) == Wrap(x, cfg.blkCount);
    assert L.EntryOk(cfg, a, x) && L.CursorOk(cfg, a, 0);
    assert SlotOk(cfg, c, a, x);
    assert a.entries[x].stage != L.Open;
  }

  lemma ClaimAllowed(cfg: Config, c: S.Ring, a: L.Log, p: nat)
    requires Linked(cfg, c, a) && S.Enabled(cfg, c, Cas(p, true)) && S.SafeClaim(cfg, c, Cas(p, true))
    ensures L.Enabled(cfg, a, Cas(p, true))
    ensures c.prods[p].pc == SizeOk(c.tail)
  {
    assert ProdOk(cfg, c, a, p) && L.WriterOk(cfg, a, p);
    if c.claims < c.prods[p].seen + cfg.blkCount {
      WrapInjective(a.writers[p].pc.t, |a.entries|, cfg.blkCount);
    } else {
      ChecksAllow(cfg, c, a);
    }
  }

  /** When both checks pass on the current tail, a claim may be made. */
  lemma ChecksAllow(cfg: Config, c: S.Ring, a: L.Log)
    requires Linked(cfg, c, a) && S.ChecksPass(cfg, c)
    ensures L.MayClaim(cfg, a)
  {
    LimitCheck(cfg, c, a);
    if |a.entries| >= cfg.blkCount {
      PreviousLapFreed(cfg, c, a);
    }
  }

  /** What a claim does to the ring, read off the log. */
  ghost predicate ClaimEffect(cfg: Config, c: S.Ring, a: L.Log, c': S.Ring, a': L.Log, p: nat)
    requires cfg.blkCount > 0
  {
    && p < |a.writers| == |c.prods|
    && a' == a.(entries := a.entries + [L.NewEntry(p)],
         writers := a.writers[p := a.writers[p].(pc := Won(|a.entries|))])
    && c' == c.(tail := Wrap(|a.entries| + 1, cfg.blkCount), claims := c.claims + 1,
                prods := c.prods[p := c.prods[p].(pc := Won(Wrap(|a.entries|, cfg.blkCount)))])
  }

  lemma ClaimEffectHolds(cfg: Config, c: S.Ring, a: L.Log, p: nat)
    requires Linked(cfg, c, a) && S.Enabled(cfg, c, Cas(p, true)) && L.Enabled(cfg, a, Cas(p, true))
    requires c.prods[p].pc == SizeOk(c.tail)
    ensures ClaimEffect(cfg, c, a, S.Next(cfg, c, Cas(p, true)), L.Next(cfg, a, Cas(p, true)), p)
  {
    NextPosition(|a.entries|, cfg.blkCount);
  }

  lemma ClaimSlots(cfg: Config, c: S.Ring, a: L.Log, c': S.Ring, a': L.Log, p: nat)
    requires Linked(cfg, c, a) && ShapeOk(cfg, c', a') && ClaimEffect(cfg, c, a, c', a', p)
    requires |a.entries| >= cfg.blkCount ==> a.entries[|a.entries| - cfg.blkCount].stage == L.Freed
    ensures forall x {:trigger Live(cfg, a', x)} :: Live(cfg, a', x) ==>
      SlotOk(cfg, c', a', x) && MetasOk(cfg, c', a', x)
  {
    var n, end := cfg.blkCount, |a.entries|;
    forall x {:trigger Live(cfg, a', x)} | Live(cfg, a', x) ensures SlotOk(cfg, c', a', x) && MetasOk(cfg, c', a', x) {
      if x < end {
        assert Live(cfg, a, x);
      } else if end >= n {
        assert Live(cfg, a, end - n) && SlotOk(cfg, c, a, end - n) && L.EntryOk(cfg, a, end - n);
        assert Wrap(end, n) == Wrap(end - n, n);
      }
    }
  }

  lemma SimClaim(cfg: Config, c: S.Ring, a: L.Log, p: nat)
    requires Linked(cfg, c, a) && S.Enabled(cfg, c, Cas(p, true)) && S.SafeClaim(cfg, c, Cas(p, true))
    ensures L.Enabled(cfg, a, Cas(p, true))
    ensures Refines(cfg, S.Next(cfg, c, Cas(p, true)), L.Next(cfg, a, Cas(p, true)))
  {
    ClaimAllowed(cfg, c, a, p);
    ClaimEffectHolds(cfg, c, a, p);
    assert L.WriterOk(cfg, a, p);
    ClaimKeeps(cfg, c, a, S.Next(cfg, c, Cas(p, true)), L.Next(cfg, a, Cas(p, true)), p);
  }

  lemma ClaimKeeps(cfg: Config, c: S.Ring, a: L.Log, c': S.Ring, a': L.Log, p: nat)
    requires Linked(cfg, c, a) && ClaimEffect(cfg, c, a, c', a', p)
    requires |a.entries| >= cfg.blkCount ==> a.entries[|a.entries| - cfg.blkCount].stage == L.Freed
    ensures Refines(cfg, c', a')
  {
    ClaimSlots(cfg, c, a, c', a', p);
    forall id | 0 <= id < cfg.modCount ensures ModOk(cfg, c', a', id) {
      assert ModOk(cfg, c, a, id);
    }
    forall q | 0 <= q < |a'.writers| ensures ProdOk(cfg, c', a', q) {
      assert ProdOk(cfg, c, a, q);
    }
    forall j | 0 <= j < |a'.entries| ensures FreeOk(cfg, c', a', j) {
      if j < |a.entries| {
        assert FreeOk(cfg, c, a, j);
      } else {
        assert L.CursorOk(cfg, a, 0);
      }
    }
  }

  // ------------------------------------------------------- filling a block

  lemma FillingAllowed(cfg: Config, c: S.Ring, a: L.Log, act: Action)
    requires Linked(cfg, c, a) && S.Enabled(cfg, c, act) && L.IsFilling(act)
    ensures L.Enabled(cfg, a, act)
    ensures Live(cfg, a, a.writers[act.p].pc.t)
    ensures c.prods[act.p].pc.t == Wrap(a.writers[act.p].pc.t, cfg.blkCount)
    ensures c.slots[c.prods[act.p].pc.t] == SlotOf(cfg, a.entries[a.writers[act.p].pc.t], a.writers[act.p].pc.t)
  {
    assert ProdOk(cfg, c, a, act.p);
    ActorHolds(cfg, c, a, act);
    HeldLive(cfg, a, act.p);
    HeldShown(cfg, c, a, act.p, a.writers[act.p].pc.t);
    FillingEnabled(cfg, c, a, act, act.p, a.writers[act.p].pc.t);
  }

  lemma ActorHolds(cfg: Config, c: S.Ring, a: L.Log, act: Action)
    requires cfg.blkCount > 0 && ShapeOk(cfg, c, a) && S.Enabled(cfg, c, act) && L.IsFilling(act)
    requires ProdOk(cfg, c, a, act.p)
    ensures a.writers[act.p].pc.Holds()
    ensures c.prods[act.p].pc.t == Wrap(a.writers[act.p].pc.t, cfg.blkCount)
  {
  }

  lemma HeldLive(cfg: Config, a: L.Log, p: nat)
    requires L.Inv(cfg, a) && p < |a.writers| && a.writers[p].pc.Holds()
    ensures L.WriterOk(cfg, a, p) && Live(cfg, a, a.writers[p].pc.t)
  {
    assert L.WriterOk(cfg, a, p);
    assert L.EntryOk(cfg, a, a.writers[p].pc.t);
  }

  lemma HeldShown(cfg: Config, c: S.Ring, a: L.Log, p: nat, t: nat)
    requires Refines(cfg, c, a) && p < |a.writers| && Live(cfg, a, t)
    ensures ProdOk(cfg, c, a, p) && SlotOk(cfg, c, a, t)
  {
  }

  lemma FillingEnabled(cfg: Config, c: S.Ring, a: L.Log, act: Action, p: nat, t: nat)
    requires Holding(cfg, c, a, p, t) && L.IsFilling(act) && act.p == p && S.Enabled(cfg, c, act)
    requires c.prods[p].pc.t == Wrap(t, cfg.blkCount)
    ensures L.Enabled(cfg, a, act)
  {
  }

  /** What a filling step does to the ring, read off the log: the held entry's slot, its producer and,
      for a store to a meta, one place of the pool. */
  ghost predicate FillingEffect(cfg: Config, c: S.Ring, a: L.Log, c': S.Ring, a': L.Log, p: nat, t: nat)
    requires cfg.blkCount > 0
  {
    && p < |a.writers| == |c.prods| && t < |a.entries| && Wrap(t, cfg.blkCount) < |c.slots|
    && |a'.entries| == |a.entries| && |a'.writers| == |a.writers|
    && a' == a.(entries := a.entries[t := a'.entries[t]], writers := a.writers[p := a'.writers[p]])
    && c' == c.(slots := c.slots[Wrap(t, cfg.blkCount) := SlotOf(cfg, a'.entries[t], t)],
                pool := c'.pool,
                prods := c.prods[p := c.prods[p].(pc := Lower(a'.writers[p].pc, cfg.blkCount))])
    && |c'.pool| == |c.pool| && |c'.slots| == |c.slots| && |c'.prods| == |c.prods|
    && !a'.writers[p].pc.Trying()
  }

  /** Producer `p` holds entry `t`, and the ring shows both as they are. */
  ghost predicate Holding(cfg: Config, c: S.Ring, a: L.Log, p: nat, t: nat) {
    && ShapeOk(cfg, c, a) && cfg.blkCount > 0 && p < |a.writers| && t < |a.entries|
    && ProdOk(cfg, c, a, p) && L.WriterOk(cfg, a, p) && a.writers[p].pc.Holds() && a.writers[p].pc.t == t
    && c.slots[Wrap(t, cfg.blkCount)] == SlotOf(cfg, a.entries[t], t)
  }

  lemma PlacingEffect(cfg: Config, c: S.Ring, a: L.Log, act: Action, p: nat, t: nat)
    requires Holding(cfg, c, a, p, t) && L.IsFilling(act) && act.p == p
    requires S.Enabled(cfg, c, act) && L.Enabled(cfg, a, act) && (act.WriteBlkPos? || act.WriteOffset? || act.Attach?)
    ensures FillingEffect(cfg, c, a, S.Next(cfg, c, act), L.Next(cfg, a, act), p, t)
  {
    var c', a' := S.Next(cfg, c, act), L.Next(cfg, a, act);
    assert c'.slots == c.slots[Wrap(t, cfg.blkCount) := SlotOf(cfg, a'.entries[t], t)];
    assert c'.prods == c.prods[p := c.prods[p].(pc := Lower(a'.writers[p].pc, cfg.blkCount))];
  }

  lemma TakingEffect(cfg: Config, c: S.Ring, a: L.Log, act: Action, p: nat, t: nat)
    requires Holding(cfg, c, a, p, t) && L.IsFilling(act) && act.p == p
    requires S.Enabled(cfg, c, act) && L.Enabled(cfg, a, act) && (act.TakeMeta?)
    ensures FillingEffect(cfg, c, a, S.Next(cfg, c, act), L.Next(cfg, a, act), p, t)
  {
    var c', a' := S.Next(cfg, c, act), L.Next(cfg, a, act);
    assert c'.slots == c.slots[Wrap(t, cfg.blkCount) := SlotOf(cfg, a'.entries[t], t)];
    assert c'.prods == c.prods[p := c.prods[p].(pc := Lower(a'.writers[p].pc, cfg.blkCount))];
  }

  lemma StoringEffect(cfg: Config, c: S.Ring, a: L.Log, act: Action, p: nat, t: nat)
    requires Holding(cfg, c, a, p, t) && L.IsFilling(act) && act.p == p
    requires S.Enabled(cfg, c, act) && L.Enabled(cfg, a, act) && (act.FillMeta? || act.SignalMeta?)
    ensures FillingEffect(cfg, c, a, S.Next(cfg, c, act), L.Next(cfg, a, act), p, t)
  {
    var c', a' := S.Next(cfg, c, act), L.Next(cfg, a, act);
    assert c'.slots == c.slots[Wrap(t, cfg.blkCount) := SlotOf(cfg, a'.entries[t], t)];
    assert c'.prods == c.prods[p := c.prods[p].(pc := Lower(a'.writers[p].pc, cfg.blkCount))];
  }

  lemma PublishingEffect(cfg: Config, c: S.Ring, a: L.Log, act: Action, p: nat, t: nat)
    requires Holding(cfg, c, a, p, t) && L.IsFilling(act) && act.p == p
    requires S.Enabled(cfg, c, act) && L.Enabled(cfg, a, act) &&
        (act.PublishFull? || act.SetFinal? || act.PublishFinal?)
    ensures FillingEffect(cfg, c, a, S.Next(cfg, c, act), L.Next(cfg, a, act), p, t)
  {
    var c', a' := S.Next(cfg, c, act), L.Next(cfg, a, act);
    assert c'.slots == c.slots[Wrap(t, cfg.blkCount) := SlotOf(cfg, a'.entries[t], t)];
    assert c'.prods == c.prods[p := c.prods[p].(pc := Lower(a'.writers[p].pc, cfg.blkCount))];
  }

  lemma FillingEffectHolds(cfg: Config, c: S.Ring, a: L.Log, act: Action)
    requires Linked(cfg, c, a) && S.Enabled(cfg, c, act) && L.IsFilling(act) && L.Enabled(cfg, a, act)
    ensures FillingEffect(cfg, c, a, S.Next(cfg, c, act), L.Next(cfg, a, act), act.p, a.writers[act.p].pc.t)
    ensures ShapeOk(cfg, S.Next(cfg, c, act), L.Next(cfg, a, act))
  {
    FillingAllowed(cfg, c, a, act);
    var p, t := act.p, a.writers[act.p].pc.t;
    assert ProdOk(cfg, c, a, p) && L.WriterOk(cfg, a, p);
    if act.WriteBlkPos? || act.WriteOffset? || act.Attach? {
      PlacingEffect(cfg, c, a, act, p, t);
    } else if act.TakeMeta? {
      TakingEffect(cfg, c, a, act, p, t);
    } else if act.FillMeta? || act.SignalMeta? {
      StoringEffect(cfg, c, a, act, p, t);
    } else {
      PublishingEffect(cfg, c, a, act, p, t);
    }
  }

  /** The store that a producer makes to meta `i` of the entry it holds, in the ring and in the log. */
  lemma StoringStep(cfg: Config, c: S.Ring, a: L.Log, act: Action, p: nat, t: nat, i: nat, base: nat)
    requires (act.FillMeta? || act.SignalMeta?) && act.p == p
    requires Holding(cfg, c, a, p, t) && S.Enabled(cfg, c, act) && L.Enabled(cfg, a, act)
    requires i == (if act.FillMeta? then act.idx else 0) && base == Wrap(t, cfg.blkCount) * cfg.capacity
    requires base + i < |c.pool| && PoolOk(c.pool, a.entries[t], base) && a.entries[t].written == map[]
    ensures var c', e' := S.Next(cfg, c, act), L.Next(cfg, a, act).entries[t];
      |c'.pool| == |c.pool| && c'.pool == c.pool[base + i := c'.pool[base + i]] && PoolOk(c'.pool, e', base)
  {
    var c', e' := S.Next(cfg, c, act), L.Next(cfg, a, act).entries[t];
    StoreOwn(c.pool, a.entries[t], e', base, i, c'.pool[base + i]);
  }

  lemma StoringMetas(cfg: Config, c: S.Ring, a: L.Log, act: Action, c': S.Ring, a': L.Log, t: nat)
    requires Linked(cfg, c, a) && S.Enabled(cfg, c, act) && L.Enabled(cfg, a, act) && (act.FillMeta? || act.SignalMeta?)
    requires c' == S.Next(cfg, c, act) && a' == L.Next(cfg, a, act) && ShapeOk(cfg, c', a') &&
        t == a.writers[act.p].pc.t
    ensures forall x {:trigger Live(cfg, a', x)} :: Live(cfg, a', x) ==> MetasOk(cfg, c', a', x)
  {
    FillingAllowed(cfg, c, a, act);
    assert L.WriterOk(cfg, a, act.p) && ProdOk(cfg, c, a, act.p);
    var i, base := if act.FillMeta? then act.idx else 0, Wrap(t, cfg.blkCount) * cfg.capacity;
    MetaInPool(cfg, Wrap(t, cfg.blkCount), i);
    assert MetasOk(cfg, c, a, t) && L.EntryOk(cfg, a, t);
    StoringStep(cfg, c, a, act, act.p, t, i, base);
    MetaUpdate(cfg, c, a, c', a', t, i, c'.pool[base + i], base + i);
  }

  lemma FillingMetas(cfg: Config, c: S.Ring, a: L.Log, act: Action)
    requires Linked(cfg, c, a) && S.Enabled(cfg, c, act) && L.IsFilling(act) && L.Enabled(cfg, a, act)
    requires ShapeOk(cfg, S.Next(cfg, c, act), L.Next(cfg, a, act))
    ensures var c', a' := S.Next(cfg, c, act), L.Next(cfg, a, act);
      forall x {:trigger Live(cfg, a', x)} :: Live(cfg, a', x) ==> MetasOk(cfg, c', a', x)
  {
    var c', a' := S.Next(cfg, c, act), L.Next(cfg, a, act);
    if act.FillMeta? || act.SignalMeta? {
      StoringMetas(cfg, c, a, act, c', a', a.writers[act.p].pc.t);
    } else {
      NothingStored(cfg, c, a, act);
      MetasKept(cfg, c, a, c', a');
    }
  }

  /** The other steps of a producer leave the pool alone, and what the log has of metas. */
  lemma NothingStored(cfg: Config, c: S.Ring, a: L.Log, act: Action)
    requires S.Shape(cfg, c) && L.Shape(cfg, a) && cfg.blkCount > 0
    requires S.Enabled(cfg, c, act) && L.Enabled(cfg, a, act) && L.IsFilling(act) && !act.FillMeta? && !act.SignalMeta?
    ensures S.Next(cfg, c, act).pool == c.pool
    ensures var es, es' := a.entries, L.Next(cfg, a, act).entries;
      && |es'| == |es|
      && forall x :: 0 <= x < |es| ==>
           es'[x].metas == es[x].metas && es'[x].written == es[x].written && es'[x].signal == es[x].signal
  {
    PoolLeft(cfg, c, act);
    MetasLeft(cfg, a, act);
  }

  lemma PoolLeft(cfg: Config, c: S.Ring, act: Action)
    requires S.Shape(cfg, c) && S.Enabled(cfg, c, act) && L.IsFilling(act) && !act.FillMeta? && !act.SignalMeta?
    ensures S.Next(cfg, c, act).pool == c.pool
  {
  }

  lemma MetasLeft(cfg: Config, a: L.Log, act: Action)
    requires L.Shape(cfg, a) && cfg.blkCount > 0
    requires L.Enabled(cfg, a, act) && L.IsFilling(act) && !act.FillMeta? && !act.SignalMeta?
    ensures var es, es' := a.entries, L.Next(cfg, a, act).entries;
      && |es'| == |es|
      && forall x :: 0 <= x < |es| ==>
           es'[x].metas == es[x].metas && es'[x].written == es[x].written && es'[x].signal == es[x].signal
  {
  }

  /** The effect keeps everything that does not concern metas. */
  lemma FillingKeeps(cfg: Config, c: S.Ring, a: L.Log, c': S.Ring, a': L.Log, p: nat, t: nat)
    requires Linked(cfg, c, a) && ShapeOk(cfg, c', a') && Live(cfg, a, t) && a.entries[t].stage == L.Open
    requires FillingEffect(cfg, c, a, c', a', p, t)
    ensures forall x {:trigger Live(cfg, a', x)} :: Live(cfg, a', x) ==> SlotOk(cfg, c', a', x)
    ensures forall s :: |a'.entries| <= s < cfg.blkCount ==> c'.slots[s] == ZERO_SLOT
    ensures forall id :: 0 <= id < cfg.modCount ==> ModOk(cfg, c', a', id)
    ensures forall q :: 0 <= q < |a'.writers| ==> ProdOk(cfg, c', a', q)
    ensures forall j :: 0 <= j < |a'.entries| ==> FreeOk(cfg, c', a', j)
  {
    SlotUpdate(cfg, c, a, c', a', t);
    forall id | 0 <= id < cfg.modCount ensures ModOk(cfg, c', a', id) && a.cursors[id].handed <= t {
      assert ModOk(cfg, c, a, id) && L.CursorOk(cfg, a, id);
    }
    forall q | 0 <= q < |a'.writers| ensures ProdOk(cfg, c', a', q) {
      assert ProdOk(cfg, c, a, q);
    }
    forall j | 0 <= j < |a'.entries| ensures FreeOk(cfg, c', a', j) {
      assert FreeOk(cfg, c, a, j);
    }
  }

  lemma SimFilling(cfg: Config, c: S.Ring, a: L.Log, act: Action)
    requires Linked(cfg, c, a) && S.Enabled(cfg, c, act) && L.IsFilling(act)
    ensures L.Enabled(cfg, a, act)
    ensures Refines(cfg, S.Next(cfg, c, act), L.Next(cfg, a, act))
  {
    FillingAllowed(cfg, c, a, act);
    FillingEffectHolds(cfg, c, a, act);
    FillingMetas(cfg, c, a, act);
    var c', a', t := S.Next(cfg, c, act), L.Next(cfg, a, act), a.writers[act.p].pc.t;
    assert ProdOk(cfg, c, a, act.p);
    ActorHolds(cfg, c, a, act);
    HeldLive(cfg, a, act.p);
    FillingKeeps(cfg, c, a, c', a', act.p, t);
  }

  // ---------------------------------------------------------- the modules

  /** The limit a module reads is the position of the counter it is limited by. */
  lemma LimitRead(cfg: Config, c: S.Ring, a: L.Log, id: nat)
    requires Linked(cfg, c, a) && id < cfg.modCount
    ensures S.LimPtr(cfg, c, id) == Wrap(L.Ahead(cfg, a, id), cfg.blkCount)
  {
    SmallMod(c.tail, cfg.blkCount);
    assert ModOk(cfg, c, a, S.DepModId(cfg, id));
  }

  /** The distance a scan computes from two positions is the distance of the counters. */
  lemma ScanDistanceExact(cfg: Config, q: nat, lim: nat)
    requires cfg.blkCount > 0 && q <= lim < q + cfg.blkCount
    ensures S.ScanDistance(cfg, Wrap(q, cfg.blkCount), Wrap(lim, cfg.blkCount)) == lim - q
  {
    WrapAdd(q, lim - q, cfg.blkCount);
  }

  /** `Move2NextMetaBlk` succeeds exactly when the counter plus the count does not pass the limit,
      and then stores the position of the advanced counter. */
  lemma MoveExact(cfg: Config, q: nat, lim: nat, count: nat)
    requires cfg.blkCount > 0 && q <= lim < q + cfg.blkCount
    ensures S.Move2Next(cfg, Wrap(q, cfg.blkCount), Wrap(lim, cfg.blkCount), count)
         == if q + count <= lim then Some(Wrap(q + count, cfg.blkCount)) else None
  {
    WrapAdd(q, lim - q, cfg.blkCount);
    if q + count <= lim {
      WrapAdd(q, count, cfg.blkCount);
      SmallMod(Wrap(q, cfg.blkCount) + count, cfg.blkCount);
    }
  }

  lemma ModuleAllowed(cfg: Config, c: S.Ring, a: L.Log, act: Action)
    requires Linked(cfg, c, a) && S.Enabled(cfg, c, act)
    requires act.ScanLimit? || act.Probe? || act.HandOver? || act.Move?
    ensures L.Enabled(cfg, a, act)
    ensures act.Probe? ==> act.ok == (a.entries[a.cursors[act.id].picked].stage != L.Open)
    ensures act.Probe? ==> Live(cfg, a, a.cursors[act.id].picked)
  {
    var id := act.id;
    assert ModOk(cfg, c, a, id) && L.CursorOk(cfg, a, id);
    L.ChainBounds(cfg, a, id);
    if act.Probe? {
      var x := a.cursors[id].picked;
      assert Live(cfg, a, x) && SlotOk(cfg, c, a, x) && L.EntryOk(cfg, a, x);
    }
  }

  lemma SimHandOver(cfg: Config, c: S.Ring, a: L.Log, id: nat)
    requires Linked(cfg, c, a) && S.Enabled(cfg, c, HandOver(id)) && L.Enabled(cfg, a, HandOver(id))
    ensures ModOk(cfg, c, a, id) && c.mods[id].pending[0] == Wrap(a.cursors[id].handed, cfg.blkCount)
    ensures a.cursors[id].handed < |a.entries|
    ensures c.slots[c.mods[id].pending[0]] == Published(cfg, a.entries[a.cursors[id].handed], a.cursors[id].handed)
    ensures a.entries[a.cursors[id].handed].stage == L.Full
  {
    var x := a.cursors[id].handed;
    assert ModOk(cfg, c, a, id) && L.CursorOk(cfg, a, id);
    assert c.mods[id].pending[0] == Wrap(x + 0, cfg.blkCount);
    L.ChainBounds(cfg, a, id);
    assert Live(cfg, a, x) && SlotOk(cfg, c, a, x) && L.EntryOk(cfg, a, x);
  }

  lemma SimScan(cfg: Config, c: S.Ring, a: L.Log, id: nat)
    requires Linked(cfg, c, a) && S.Enabled(cfg, c, ScanLimit(id))
    ensures L.Enabled(cfg, a, ScanLimit(id))
    ensures Refines(cfg, S.Next(cfg, c, ScanLimit(id)), L.Next(cfg, a, ScanLimit(id)))
  {
    ModuleAllowed(cfg, c, a, ScanLimit(id));
    assert ModOk(cfg, c, a, id) && L.CursorOk(cfg, a, id);
    L.ChainBounds(cfg, a, id);
    LimitRead(cfg, c, a, id);
    ScanDistanceExact(cfg, a.cursors[id].picked, L.Ahead(cfg, a, id));
    ModuleFrame(cfg, c, a, S.Next(cfg, c, ScanLimit(id)), L.Next(cfg, a, ScanLimit(id)), id);
  }

  /** A move past blocks that were handed over is not refused. */
  lemma MoveTaken(cfg: Config, c: S.Ring, a: L.Log, id: nat, count: nat)
    requires Linked(cfg, c, a) && S.Enabled(cfg, c, Move(id, count))
    ensures L.Enabled(cfg, a, Move(id, count))
    ensures S.Move2Next(cfg, c.mods[id].blkPtr, S.LimPtr(cfg, c, id), count)
         == Some(Wrap(a.cursors[id].moved + count, cfg.blkCount))
  {
    ModuleAllowed(cfg, c, a, Move(id, count));
    assert ModOk(cfg, c, a, id) && L.CursorOk(cfg, a, id);
    L.ChainBounds(cfg, a, id);
    LimitRead(cfg, c, a, id);
    MoveExact(cfg, a.cursors[id].moved, L.Ahead(cfg, a, id), count);
  }

  lemma SimMove(cfg: Config, c: S.Ring, a: L.Log, id: nat, count: nat)
    requires Linked(cfg, c, a) && S.Enabled(cfg, c, Move(id, count))
    ensures L.Enabled(cfg, a, Move(id, count))
    ensures Refines(cfg, S.Next(cfg, c, Move(id, count)), L.Next(cfg, a, Move(id, count)))
    ensures S.Move2Next(cfg, c.mods[id].blkPtr, S.LimPtr(cfg, c, id), count).Some?
  {
    MoveTaken(cfg, c, a, id, count);
    assert ModOk(cfg, c, a, id);
    ModuleFrame(cfg, c, a, S.Next(cfg, c, Move(id, count)), L.Next(cfg, a, Move(id, count)), id);
  }

  lemma SimProbe(cfg: Config, c: S.Ring, a: L.Log, id: nat, ok: bool)
    requires Linked(cfg, c, a) && S.Enabled(cfg, c, Probe(id, ok))
    ensures L.Enabled(cfg, a, Probe(id, ok))
    ensures Refines(cfg, S.Next(cfg, c, Probe(id, ok)), L.Next(cfg, a, Probe(id, ok)))
  {
    ModuleAllowed(cfg, c, a, Probe(id, ok));
    assert L.CursorOk(cfg, a, id) && ModOk(cfg, c, a, id);
    var c', a' := S.Next(cfg, c, Probe(id, ok)), L.Next(cfg, a, Probe(id, ok));
    ModuleFrame(cfg, c, a, c', a', id);
    assert ModOk(cfg, c', a', id) by {
      ProbeMod(cfg, c, a, id, ok);
    }
  }

  lemma ProbeMod(cfg: Config, c: S.Ring, a: L.Log, id: nat, ok: bool)
    requires ShapeOk(cfg, c, a) && id < cfg.modCount && ModOk(cfg, c, a, id) && S.Enabled(cfg, c, Probe(id, ok)) &&
        L.Enabled(cfg, a, Probe(id, ok))
    requires ShapeOk(cfg, S.Next(cfg, c, Probe(id, ok)), L.Next(cfg, a, Probe(id, ok)))
    ensures ModOk(cfg, S.Next(cfg, c, Probe(id, ok)), L.Next(cfg, a, Probe(id, ok)), id)
  {
    var n, k, m := cfg.blkCount, a.cursors[id], c.mods[id];
    if ok {
      NextPosition(k.picked, n);
      var m' := m.(pending := m.pending + [m.pick], pick := (m.pick + 1) % n, left := m.left - 1);
      PickMatch(m, k, n, m');
      assert S.Next(cfg, c, Probe(id, ok)) == c.(mods := c.mods[id := m']);
    } else {
      assert S.Next(cfg, c, Probe(id, ok)) == c.(mods := c.mods[id := m.(left := 0)]);
    }
  }

  lemma PickMatch(m: S.Module, k: L.Cursor, n: nat, m': S.Module)
    requires n > 0 && CursorMatch(m, k, n) && m.left > 0
    requires m'.pick == Wrap(k.picked + 1, n)
    requires m' == m.(pending := m.pending + [m.pick], pick := m'.pick, left := m.left - 1)
    ensures CursorMatch(m', k.(picked := k.picked + 1, left := k.left - 1), n)
  {
    forall i | 0 <= i < |m'.pending| ensures m'.pending[i] == Wrap(k.handed + i, n) {
      if i == |m.pending| {
        assert k.handed + i == k.picked;
      }
    }
  }

  /** A step of one module leaves the other modules, the producers and the slots alone. */
  lemma ModuleFrame(cfg: Config, c: S.Ring, a: L.Log, c': S.Ring, a': L.Log, id: nat)
    requires Refines(cfg, c, a) && ShapeOk(cfg, c', a') && id < cfg.modCount
    requires a'.entries == a.entries && a'.writers == a.writers && a'.cursors == a.cursors[id := a'.cursors[id]]
    requires c'.slots == c.slots && c'.pool == c.pool && c'.prods == c.prods && c'.mods == c.mods[id := c'.mods[id]]
    ensures c'.frees == c.frees && a'.cursors[0].handed == a.cursors[0].handed ==>
      forall j :: 0 <= j < |a'.entries| ==> FreeOk(cfg, c', a', j)
    ensures forall i :: 0 <= i < cfg.modCount && i != id ==> ModOk(cfg, c', a', i)
    ensures forall p :: 0 <= p < |a'.writers| ==> ProdOk(cfg, c', a', p)
    ensures forall x {:trigger Live(cfg, a', x)} :: Live(cfg, a', x) ==>
      SlotOk(cfg, c', a', x) && MetasOk(cfg, c', a', x)
    ensures forall s :: |a'.entries| <= s < cfg.blkCount ==> c'.slots[s] == ZERO_SLOT
  {
    forall i | 0 <= i < cfg.modCount && i != id ensures ModOk(cfg, c', a', i) {
      assert ModOk(cfg, c, a, i);
    }
    forall p | 0 <= p < |a'.writers| ensures ProdOk(cfg, c', a', p) {
      assert ProdOk(cfg, c, a, p);
    }
    forall x {:trigger Live(cfg, a', x)} | Live(cfg, a', x) ensures SlotOk(cfg, c', a', x) && MetasOk(cfg, c', a', x) {
      assert Live(cfg, a, x);
    }
    forall j | 0 <= j < |a'.entries| && c'.frees == c.frees && a'.cursors[0].handed == a.cursors[0].handed
      ensures FreeOk(cfg, c', a', j)
    {
      assert FreeOk(cfg, c, a, j);
    }
  }

  /** Handing a block to module 0 gives it that block to free. */
  lemma HandFrees(cfg: Config, c: S.Ring, a: L.Log, id: nat)
    requires Linked(cfg, c, a) && S.Enabled(cfg, c, HandOver(id)) && L.Enabled(cfg, a, HandOver(id))
    requires ShapeOk(cfg, S.Next(cfg, c, HandOver(id)), L.Next(cfg, a, HandOver(id)))
    ensures var c', a' := S.Next(cfg, c, HandOver(id)), L.Next(cfg, a, HandOver(id));
      && (forall j :: 0 <= j < |a'.entries| ==> FreeOk(cfg, c', a', j))
      && (forall j :: j in c'.frees ==> j < |a'.entries|)
  {
    SimHandOver(cfg, c, a, id);
    var c', a', x := S.Next(cfg, c, HandOver(id)), L.Next(cfg, a, HandOver(id)), a.cursors[id].handed;
    var s := c.mods[id].pending[0];
    assert c'.frees == if id == 0 then c.frees[x := Freeing(s, 0)] else c.frees;
    assert a'.cursors[0].handed == if id == 0 then x + 1 else a.cursors[0].handed;
    forall j | 0 <= j < |a'.entries| ensures FreeOk(cfg, c', a', j) {
      assert FreeOk(cfg, c, a, j);
    }
  }

  lemma SimHand(cfg: Config, c: S.Ring, a: L.Log, id: nat)
    requires Linked(cfg, c, a) && S.Enabled(cfg, c, HandOver(id))
    ensures L.Enabled(cfg, a, HandOver(id))
    ensures Refines(cfg, S.Next(cfg, c, HandOver(id)), L.Next(cfg, a, HandOver(id)))
  {
    ModuleAllowed(cfg, c, a, HandOver(id));
    SimHandOver(cfg, c, a, id);
    var c', a' := S.Next(cfg, c, HandOver(id)), L.Next(cfg, a, HandOver(id));
    HandFrees(cfg, c, a, id);
    ModuleFrame(cfg, c, a, c', a', id);
    HandOk(cfg, c, a, id);
  }

  lemma HandOk(cfg: Config, c: S.Ring, a: L.Log, id: nat)
    requires ShapeOk(cfg, c, a) && cfg.blkCount > 0 && id < cfg.modCount && ModOk(cfg, c, a, id)
    requires S.Enabled(cfg, c, HandOver(id)) && L.Enabled(cfg, a, HandOver(id)) && a.cursors[id].handed < |a.entries|
    requires c.slots[c.mods[id].pending[0]] == Published(cfg, a.entries[a.cursors[id].handed], a.cursors[id].handed)
    requires ShapeOk(cfg, S.Next(cfg, c, HandOver(id)), L.Next(cfg, a, HandOver(id)))
    ensures ModOk(cfg, S.Next(cfg, c, HandOver(id)), L.Next(cfg, a, HandOver(id)), id)
  {
    HandMod(c, c.mods[id], a.cursors[id], cfg.blkCount, S.Next(cfg, c, HandOver(id)).mods[id]);
  }

  lemma HandMod(c: S.Ring, m: S.Module, k: L.Cursor, n: nat, m': S.Module)
    requires n > 0 && CursorMatch(m, k, n) && m.pending != [] && m.pending[0] < |c.slots|
    requires m' == m.(pending := m.pending[1..], held := m.held + 1, handed := m.handed + [c.slots[m.pending[0]]])
    ensures CursorMatch(m', k.(handed := k.handed + 1), n)
  {
    forall i | 0 <= i < |m'.pending| ensures m'.pending[i] == Wrap(k.handed + 1 + i, n) {
      assert m.pending[i + 1] == Wrap(k.handed + (i + 1), n);
    }
  }

  // ------------------------------------------------------------- freeing

  /** What one store of `FreeFullMetaBlk` does to the ring, read off the log. */
  ghost predicate FreeEffect(cfg: Config, c: S.Ring, a: L.Log, c': S.Ring, a': L.Log, j: nat)
    requires cfg.blkCount > 0
  {
    && j < |a.entries| && Wrap(j, cfg.blkCount) < |c.slots|
    && |a'.entries| == |a.entries| && a' == a.(entries := a.entries[j := a'.entries[j]])
    && a'.entries[j] == a.entries[j].(stage := a'.entries[j].stage)
    && a'.entries[j].stage != L.Open && a'.entries[j].stage != L.Full
    && c' == c.(slots := c.slots[Wrap(j, cfg.blkCount) := SlotOf(cfg, a'.entries[j], j)], frees := c'.frees)
    && (forall i :: i != j ==> (i in c'.frees <==> i in c.frees))
    && (forall i :: i != j && i in c.frees ==> c'.frees[i] == c.frees[i])
    && (j in c'.frees <==> a'.entries[j].stage != L.Freed)
    && (j in c'.frees ==> c'.frees[j] == Freeing(Wrap(j, cfg.blkCount), DoneAt(a'.entries[j].stage)))
  }

  lemma FreeEffectHolds(cfg: Config, c: S.Ring, a: L.Log, act: Action)
    requires Linked(cfg, c, a) && S.Enabled(cfg, c, act)
    requires act.ClearFinal? || act.ClearData? || act.ClearSize?
    ensures L.Enabled(cfg, a, act) && Live(cfg, a, act.j) && act.j < a.cursors[0].handed
    ensures FreeEffect(cfg, c, a, S.Next(cfg, c, act), L.Next(cfg, a, act), act.j)
  {
    var j := act.j;
    assert FreeOk(cfg, c, a, j) && L.EntryOk(cfg, a, j);
    assert Live(cfg, a, j) && SlotOk(cfg, c, a, j);
    FreeStore(cfg, c, a, act, j);
  }

  lemma FreeStore(cfg: Config, c: S.Ring, a: L.Log, act: Action, j: nat)
    requires ShapeOk(cfg, c, a) && cfg.blkCount > 0 && S.Enabled(cfg, c, act) && L.Enabled(cfg, a, act)
    requires (act.ClearFinal? || act.ClearData? || act.ClearSize?) && act.j == j
    requires Live(cfg, a, j) && SlotOk(cfg, c, a, j) && FreeOk(cfg, c, a, j)
    requires a.entries[j].marked && a.entries[j].placed
    ensures FreeEffect(cfg, c, a, S.Next(cfg, c, act), L.Next(cfg, a, act), j)
  {
    var c', a', s := S.Next(cfg, c, act), L.Next(cfg, a, act), Wrap(j, cfg.blkCount);
    assert c'.slots == c.slots[s := SlotOf(cfg, a'.entries[j], j)];
  }

  lemma FreeKeeps(cfg: Config, c: S.Ring, a: L.Log, c': S.Ring, a': L.Log, j: nat)
    requires Linked(cfg, c, a) && Live(cfg, a, j) && j < a.cursors[0].handed
    requires FreeEffect(cfg, c, a, c', a', j)
    ensures Refines(cfg, c', a')
  {
    SlotUpdate(cfg, c, a, c', a', j);
    MetasKept(cfg, c, a, c', a');
    forall id | 0 <= id < cfg.modCount ensures ModOk(cfg, c', a', id) {
      assert ModOk(cfg, c, a, id);
    }
    forall p | 0 <= p < |a'.writers| ensures ProdOk(cfg, c', a', p) {
      assert ProdOk(cfg, c, a, p);
    }
    forall i | 0 <= i < |a'.entries| ensures FreeOk(cfg, c', a', i) {
      assert FreeOk(cfg, c, a, i);
    }
  }

  // ------------------------------------------------------------- writing

  /** A block that a module has is in the last lap, and the meta it writes is in the block's own range. */
  lemma WriteAllowed(cfg: Config, c: S.Ring, a: L.Log, act: Action)
    requires Linked(cfg, c, a) && S.Enabled(cfg, c, act) && act.WriteMeta?
    ensures L.Enabled(cfg, a, act) && Live(cfg, a, act.j) && a.entries[act.j].stage != L.Open
    ensures act.idx < L.RoomAt(cfg, act.j)
    ensures c.mods[act.id].handed[act.j].offset == Wrap(act.j, cfg.blkCount) * cfg.capacity
    ensures c.mods[act.id].handed[act.j].offset + act.idx < |c.pool|
  {
    var id, j := act.id, act.j;
    assert ModOk(cfg, c, a, id) && L.CursorOk(cfg, a, id);
    assert L.EntryOk(cfg, a, j) && FreeOk(cfg, c, a, j);
    L.ChainBounds(cfg, a, id);
    MetaInPool(cfg, Wrap(j, cfg.blkCount), act.idx);
  }

  lemma SimWrite(cfg: Config, c: S.Ring, a: L.Log, act: Action)
    requires Linked(cfg, c, a) && S.Enabled(cfg, c, act) && act.WriteMeta?
    ensures L.Enabled(cfg, a, act)
    ensures Refines(cfg, S.Next(cfg, c, act), L.Next(cfg, a, act))
  {
    WriteAllowed(cfg, c, a, act);
    WriteMetas(cfg, c, a, act, Wrap(act.j, cfg.blkCount) * cfg.capacity);
    WriteKeeps(cfg, c, a, S.Next(cfg, c, act), L.Next(cfg, a, act), act.j);
  }

  lemma WriteMetas(cfg: Config, c: S.Ring, a: L.Log, act: Action, base: nat)
    requires Linked(cfg, c, a) && S.Enabled(cfg, c, act) && L.Enabled(cfg, a, act) && act.WriteMeta?
    requires Live(cfg, a, act.j) && act.idx < L.RoomAt(cfg, act.j) && base == Wrap(act.j, cfg.blkCount) * cfg.capacity
    requires var c', a' := S.Next(cfg, c, act), L.Next(cfg, a, act);
      && c.mods[act.id].handed[act.j].offset == base && base + act.idx < |c.pool| && ShapeOk(cfg, c', a')
    ensures var c', a' := S.Next(cfg, c, act), L.Next(cfg, a, act);
      forall x {:trigger Live(cfg, a', x)} :: Live(cfg, a', x) ==> MetasOk(cfg, c', a', x)
  {
    LiveFacts(cfg, c, a, act.j);
    StoreBody(c.pool, a.entries[act.j], base, act.idx, act.body);
    var m := c.pool[base + act.idx].(body := act.body);
    MetaUpdate(cfg, c, a, S.Next(cfg, c, act), L.Next(cfg, a, act), act.j, act.idx, m, base + act.idx);
  }

  lemma WriteKeeps(cfg: Config, c: S.Ring, a: L.Log, c': S.Ring, a': L.Log, j: nat)
    requires Refines(cfg, c, a) && ShapeOk(cfg, c', a') && j < |a.entries| == |a'.entries|
    requires a' == a.(entries := a.entries[j := a.entries[j].(written := a'.entries[j].written)])
    requires c' == c.(pool := c'.pool)
    requires forall x {:trigger Live(cfg, a', x)} :: Live(cfg, a', x) ==> MetasOk(cfg, c', a', x)
    ensures Refines(cfg, c', a')
  {
    forall id | 0 <= id < cfg.modCount ensures ModOk(cfg, c', a', id) {
      assert ModOk(cfg, c, a, id);
    }
    forall p | 0 <= p < |a'.writers| ensures ProdOk(cfg, c', a', p) {
      assert ProdOk(cfg, c, a, p);
    }
    forall x {:trigger Live(cfg, a', x)} | Live(cfg, a', x) ensures SlotOk(cfg, c', a', x) {
      assert Live(cfg, a, x);
    }
    forall i | 0 <= i < |a'.entries| ensures FreeOk(cfg, c', a', i) {
      assert FreeOk(cfg, c, a, i);
    }
  }

  // ------------------------------------------------------------ all steps

  /** Every step of the modular ring is the same step of the log. */
  lemma Simulates(cfg: Config, c: S.Ring, a: L.Log, act: Action)
    requires Linked(cfg, c, a) && S.Enabled(cfg, c, act) && S.SafeClaim(cfg, c, act)
    ensures L.Enabled(cfg, a, act)
    ensures Linked(cfg, S.Next(cfg, c, act), L.Next(cfg, a, act))
  {
    if L.IsFilling(act) {
      SimFilling(cfg, c, a, act);
    } else if act.Cas? && act.ok {
      SimClaim(cfg, c, a, act.p);
    } else if act.ReadTail? || act.ReadLimit? || act.ReadSize? || act.Cas? {
      SimReads(cfg, c, a, act);
    } else if act.ClearFinal? || act.ClearData? || act.ClearSize? {
      FreeEffectHolds(cfg, c, a, act);
      FreeKeeps(cfg, c, a, S.Next(cfg, c, act), L.Next(cfg, a, act), act.j);
    } else if act.WriteMeta? {
      SimWrite(cfg, c, a, act);
    } else if act.HandOver? {
      SimHand(cfg, c, a, act.id);
    } else if act.ScanLimit? {
      SimScan(cfg, c, a, act.id);
    } else if act.Probe? {
      SimProbe(cfg, c, a, act.id, act.ok);
    } else {
      SimMove(cfg, c, a, act.id, act.count);
    }
    I.KeepInv(cfg, a, act);
  }

  /** The log after a run of the modular ring. */
  ghost predicate LogRun(cfg: Config, a: L.Log, acts: seq<Action>, a': L.Log)
    requires L.Shape(cfg, a) && cfg.blkCount > 0
    decreases |acts|
  {
    if acts == [] then a == a'
    else L.Enabled(cfg, a, acts[0]) && LogRun(cfg, L.Next(cfg, a, acts[0]), acts[1..], a')
  }

  /** Every run of the modular ring whose claims are safe is a run of the log. */
  lemma {:induction false} RunRefines(cfg: Config, c: S.Ring, a: L.Log, acts: seq<Action>) returns (a': L.Log)
    requires Linked(cfg, c, a) && S.Legal(cfg, c, acts) && S.SafeRun(cfg, c, acts)
    ensures LogRun(cfg, a, acts, a')
    ensures Linked(cfg, S.Exec(cfg, c, acts), a')
    decreases |acts|
  {
    if acts == [] {
      a' := a;
    } else {
      Simulates(cfg, c, a, acts[0]);
      a' := RunRefines(cfg, S.Next(cfg, c, acts[0]), L.Next(cfg, a, acts[0]), acts[1..]);
    }
  }
}
