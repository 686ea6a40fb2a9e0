/** The data of the packet ring that both the modular ring and its unbounded specification use. */
module RingTypes {

  datatype Option<+T> = None | Some(value: T)

  /** What is fixed once the ring has started: the number of meta blocks (`g_metaBlkCount`), of
      modules (`g_index`), of metas a block holds (`g_metaBlkCapacity`) and of metas in all
      (`g_metaCount + 1`). */
  datatype Config = Config(blkCount: nat, modCount: nat, capacity: nat, metaTotal: nat)

  /** The sizing that `InitRing` establishes. */
  ghost predicate Sized(cfg: Config) {
    && cfg.modCount >= 1
    && cfg.capacity >= 1
    && cfg.metaTotal >= 1
    && cfg.blkCount == (cfg.metaTotal - 1) / cfg.capacity + 1
  }

  /** One `PktMetaBlk_t`. A data block pointer is a number, NULL being 0. */
  datatype Slot = Slot(dataBlk: nat, isFinal: bool, blkPos: nat, offset: nat, size: nat)

  const ZERO_SLOT := Slot(0, false, 0, 0, 0)

  /** One `PacketMeta_t`: the two fields the ring itself looks at, and all the others as `body`. */
  datatype Meta = Meta(ts: nat, pktLen: nat, body: nat)

  /** `GetMetaBlkCapacity` for a block at `offset`. */
  function Capacity(cfg: Config, offset: nat): int {
    var metaCount := cfg.metaTotal - 1;
    if offset + cfg.capacity > metaCount then metaCount - offset else cfg.capacity
  }

  /** How many metas a producer may hand out of the block in slot `s`: its capacity, but always one. */
  function Room(cfg: Config, s: nat): nat {
    var capacity := Capacity(cfg, s * cfg.capacity);
    if capacity < 1 then 1 else capacity
  }

  /** Where a producer is inside `GetEmptyMetaBlk`, and what it does with the block afterwards.
      `t` is the block: a ring position in the modular ring, a claim number in the specification. */
  datatype Pc =
    | Idle
    | TailRead(t: nat)
    | LimitOk(t: nat)
    | SizeOk(t: nat)
    | Won(t: nat)
    | Marked(t: nat)
    | Fresh(t: nat)
    | Filling(t: nat, used: nat, data: nat, signal: bool)
    | Sealed(t: nat, used: nat, data: nat, signal: bool)
  {
    /** The tail has been read and the compare-and-swap is still to come. */
    predicate Trying() { TailRead? || LimitOk? || SizeOk? }

    /** The block is claimed and not published. */
    predicate Holds() { Won? || Marked? || Fresh? || Filling? || Sealed? }
  }

  /** The atomic steps. `p` is a producer, `id` a module; `ok` is which way the step went. */
  datatype Action =
    | ReadTail(p: nat)
    | ReadLimit(p: nat, ok: bool)
    | ReadSize(p: nat, ok: bool)
    | Cas(p: nat, ok: bool)
    | WriteBlkPos(p: nat)
    | WriteOffset(p: nat)
    | Attach(p: nat, data: nat)
    | TakeMeta(p: nat, data: nat)
    | FillMeta(p: nat, idx: nat, meta: Meta)
    | PublishFull(p: nat)
    | SetFinal(p: nat)
    | PublishFinal(p: nat)
    | SignalMeta(p: nat, ts: nat)
    | ScanLimit(id: nat)
    | Probe(id: nat, ok: bool)
    | HandOver(id: nat)
    | Move(id: nat, count: nat)
    | WriteMeta(id: nat, j: nat, idx: nat, body: nat)
    | ClearFinal(j: nat)
    | ClearData(j: nat)
    | ClearSize(j: nat)

  /** A meta block that module 0 was handed and is freeing: its slot, and how many of the three
      stores of `FreeFullMetaBlk` are done. */
  datatype Freeing = Freeing(pos: nat, done: nat)
}

/** Which metas belong to which meta block. */
module RingGeometry {
  import opened RingTypes
  import opened Modular

  lemma OffsetBound(cfg: Config, s: nat)
    requires Sized(cfg) && s < cfg.blkCount
    ensures s * cfg.capacity <= cfg.metaTotal - 1
  {
    var q := (cfg.metaTotal - 1) / cfg.capacity;
    DivFloor(cfg.metaTotal - 1, cfg.capacity);
    MulMonotone(s, q, cfg.capacity);
  }

  lemma DivFloor(a: nat, b: nat)
    requires b > 0
    ensures (a / b) * b <= a < (a / b) * b + b
  {
    assert a == b * (a / b) + a % b;
  }

  /** Every meta a producer may hand out lies in the meta pool and within the block's own range. */
  lemma MetaInPool(cfg: Config, s: nat, i: nat)
    requires Sized(cfg) && s < cfg.blkCount && i < Room(cfg, s)
    ensures s * cfg.capacity + i < cfg.metaTotal
    ensures i < cfg.capacity
  {
    OffsetBound(cfg, s);
  }

  /** Two blocks never share a meta. */
  lemma MetaDisjoint(cfg: Config, s: nat, i: nat, s': nat, i': nat)
    requires s != s' && i < cfg.capacity && i' < cfg.capacity
    ensures s * cfg.capacity + i != s' * cfg.capacity + i'
  {
    assert (s + 1) * cfg.capacity == s * cfg.capacity + cfg.capacity;
    assert (s' + 1) * cfg.capacity == s' * cfg.capacity + cfg.capacity;
    if s < s' {
      MulMonotone(s + 1, s', cfg.capacity);
    } else {
      MulMonotone(s' + 1, s, cfg.capacity);
    }
  }
}
