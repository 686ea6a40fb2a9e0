/** The packet ring as its code runs: one shared tail kept modulo the number of meta blocks, one
    `blkPtr` per module, meta blocks reused lap after lap, and one atomic step per access to shared
    memory. Any number of producers and modules take steps in any order. */
module RingSteps {
  import opened RingTypes

  /** A module: its shared cursor, the private fields of its `CPacketRing` (the pick position and the
      list of picked blocks) and of a scan in progress (`left`). `held` counts the blocks handed to
      the caller that it has not moved past. `handed` records every block handed over, as it read at
      that moment; no step depends on it. */
  datatype Module = Module(blkPtr: nat, pick: nat, left: nat, pending: seq<nat>, held: nat, handed: seq<Slot>)

  /** A producer; `seen` records how many claims had succeeded when it last read the tail. No step
      depends on it. */
  datatype Producer = Producer(pc: Pc, seen: nat)

  /** `claims` records how many claims have succeeded. No step depends on it. `frees` is what
      module 0 still has to free, keyed by the order in which the blocks were handed to it. */
  datatype Ring = Ring(tail: nat, claims: nat, slots: seq<Slot>, pool: seq<Meta>,
                       mods: seq<Module>, prods: seq<Producer>, frees: map<nat, Freeing>)

  ghost predicate Shape(cfg: Config, c: Ring) {
    && |c.slots| == cfg.blkCount && |c.pool| == cfg.metaTotal && |c.mods| == cfg.modCount
    && cfg.blkCount >= 1 && cfg.modCount >= 1
  }

  /** A started ring with `prods` producers: the shared memory is zeroed. */
  ghost predicate Init(cfg: Config, c: Ring) {
    && Shape(cfg, c)
    && c.tail == 0 && c.claims == 0
    && (forall s :: 0 <= s < |c.slots| ==> c.slots[s] == ZERO_SLOT)
    && (forall id :: 0 <= id < |c.mods| ==> c.mods[id] == Module(0, 0, 0, [], 0, []))
    && (forall p :: 0 <= p < |c.prods| ==> c.prods[p].pc == Idle)
    && c.frees == map[]
  }

  /** The module another one depends on. Module 0, the last of the chain, depends on the last one
      registered. */
  function DepModId(cfg: Config, id: nat): (d: nat)
    requires id < cfg.modCount
    ensures d < cfg.modCount
  {
    if id == 0 then cfg.modCount - 1 else id - 1
  }

  /** The limit a module reads: the tail for the first of the chain, else the cursor ahead of it. */
  function LimPtr(cfg: Config, c: Ring, id: nat): nat
    requires Shape(cfg, c) && id < cfg.modCount
  {
    var dep := DepModId(cfg, id);
    if id == 1 || id == dep then c.tail % cfg.blkCount else c.mods[dep].blkPtr
  }

  /** The number of blocks a scan may look at. */
  function ScanDistance(cfg: Config, cur: nat, lim: nat): int {
    if cur > lim then lim + cfg.blkCount - cur else lim - cur
  }

  /** `Move2NextMetaBlk` on the cursor: the new position, or None for its error return. */
  function Move2Next(cfg: Config, cur: nat, lim: nat, count: nat): Option<nat>
    requires cfg.blkCount >= 1
  {
    var lim' := if lim < cur then lim + cfg.blkCount else lim;
    if cur + count <= lim' then Some((cur + count) % cfg.blkCount) else None
  }

  /** `GetMetaInBlk`: the index of a meta in the pool, or None for NULL. */
  function GetMetaInBlk(cfg: Config, blk: Slot, idx: nat): Option<nat> {
    if blk.size > 0 && idx >= blk.size then None
    else if blk.size == 0 && idx >= cfg.capacity then None
    else Some(blk.offset + idx)
  }

  /** A block is there for a module between two calls: it has picked one that it was not handed, or it has not
      come to its limit and the block at its pick position is published. */
  predicate NextReady(cfg: Config, c: Ring, id: nat)
    requires Shape(cfg, c) && id < cfg.modCount
  {
    var m := c.mods[id];
    m.pending != [] || (m.pick != LimPtr(cfg, c, id) && m.pick < |c.slots| && c.slots[m.pick].size != 0)
  }

  /** The position of that block. */
  function NextPos(c: Ring, id: nat): nat
    requires id < |c.mods|
  {
    if c.mods[id].pending != [] then c.mods[id].pending[0] else c.mods[id].pick
  }

  predicate IsRingEmpty(cfg: Config, c: Ring)
    requires Shape(cfg, c)
  {
    c.tail % cfg.blkCount == c.mods[0].blkPtr
  }

  /** The checks `IsStopSignal` and `IsTimeoutSignal` share. */
  predicate LooksLikeSignal(blk: Slot) {
    blk.dataBlk == 0 && blk.isFinal && blk.size == 1
  }

  predicate IsStopSignal(cfg: Config, c: Ring, s: nat)
    requires s < |c.slots|
  {
    && LooksLikeSignal(c.slots[s])
    && c.slots[s].offset < |c.pool|
    && c.pool[c.slots[s].offset].ts == 0
    && c.pool[c.slots[s].offset].pktLen == 0
  }

  predicate IsTimeoutSignal(cfg: Config, c: Ring, s: nat)
    requires s < |c.slots|
  {
    && LooksLikeSignal(c.slots[s])
    && c.slots[s].offset < |c.pool|
    && c.pool[c.slots[s].offset].ts != 0
    && c.pool[c.slots[s].offset].pktLen == 0
  }

  // ------------------------------------------------------------------ steps

  /** Producer `p` is at a point satisfying the rest of the guard; its block is a real slot. */
  predicate At(c: Ring, p: nat) {
    p < |c.prods| && (c.prods[p].pc.Idle? || c.prods[p].pc.t < |c.slots|)
  }

  /** Block `j` is in the hands of module `id`: it was handed over, and the module has not moved past it
      or, for module 0, not freed it. */
  predicate Has(c: Ring, id: nat, j: nat)
    requires id < |c.mods|
  {
    j < |c.mods[id].handed| && (j + c.mods[id].held >= |c.mods[id].handed| || (id == 0 && j in c.frees))
  }

  /** The steps the code can take next, with the outcome it would take, together with what is asked
      of its callers: one data block is finalised before the next, a producer stores metas only before it
      publishes them, a module writes only to metas of blocks it has and leaves their time and length
      alone, it moves only past blocks it was handed, and module 0 frees each block it was handed once. */
  predicate Enabled(cfg: Config, c: Ring, act: Action)
    requires Shape(cfg, c)
  {
    match act
    case ReadTail(p) => At(c, p) && c.prods[p].pc.Idle?
    case ReadLimit(p, ok) =>
      At(c, p) && c.prods[p].pc.TailRead? &&
      ok == ((c.prods[p].pc.t + 2) % cfg.blkCount != c.mods[0].blkPtr)
    case ReadSize(p, ok) =>
      At(c, p) && c.prods[p].pc.LimitOk? && ok == (c.slots[c.prods[p].pc.t].size == 0)
    case Cas(p, ok) => At(c, p) && c.prods[p].pc.SizeOk? && ok == (c.tail == c.prods[p].pc.t)
    case WriteBlkPos(p) => At(c, p) && c.prods[p].pc.Won?
    case WriteOffset(p) => At(c, p) && c.prods[p].pc.Marked?
    case Attach(p, data) => At(c, p) && c.prods[p].pc.Fresh?
    case TakeMeta(p, data) =>
      At(c, p) && c.prods[p].pc.Filling? && !c.prods[p].pc.signal && c.prods[p].pc.data == data &&
      (c.prods[p].pc.used == 0 || c.prods[p].pc.used < Capacity(cfg, c.slots[c.prods[p].pc.t].offset))
    case FillMeta(p, idx, meta) =>
      At(c, p) && c.prods[p].pc.Filling? && !c.prods[p].pc.signal && idx < c.prods[p].pc.used
    case PublishFull(p) =>
      At(c, p) && c.prods[p].pc.Filling? && !c.prods[p].pc.signal && c.prods[p].pc.used > 0 &&
      c.prods[p].pc.used >= Capacity(cfg, c.slots[c.prods[p].pc.t].offset)
    case SetFinal(p) => At(c, p) && c.prods[p].pc.Filling? && c.prods[p].pc.used > 0
    case PublishFinal(p) => At(c, p) && c.prods[p].pc.Sealed?
    case SignalMeta(p, ts) => At(c, p) && c.prods[p].pc.Fresh?
    case ScanLimit(id) => id < |c.mods| && c.mods[id].left == 0 && c.mods[id].pending == []
    case Probe(id, ok) =>
      id < |c.mods| && c.mods[id].left > 0 && c.mods[id].pick < |c.slots| &&
      ok == (c.slots[c.mods[id].pick].size != 0)
    case HandOver(id) =>
      id < |c.mods| && c.mods[id].left == 0 && c.mods[id].pending != [] &&
      c.mods[id].pending[0] < |c.slots|
    case Move(id, count) => id < |c.mods| && count <= c.mods[id].held
    case WriteMeta(id, j, idx, body) => id < |c.mods| && Has(c, id, j) && idx < c.mods[id].handed[j].size
    case ClearFinal(j) => j in c.frees && c.frees[j].done == 0 && c.frees[j].pos < |c.slots|
    case ClearData(j) => j in c.frees && c.frees[j].done == 1 && c.frees[j].pos < |c.slots|
    case ClearSize(j) => j in c.frees && c.frees[j].done == 2 && c.frees[j].pos < |c.slots|
  }

  function SetPc(c: Ring, p: nat, pc: Pc): (c': Ring)
    requires p < |c.prods|
  {
    c.(prods := c.prods[p := c.prods[p].(pc := pc)])
  }

  function SetSlot(c: Ring, s: nat, blk: Slot): (c': Ring)
    requires s < |c.slots|
  {
    c.(slots := c.slots[s := blk])
  }

  function SetMod(c: Ring, id: nat, m: Module): (c': Ring)
    requires id < |c.mods|
  {
    c.(mods := c.mods[id := m])
  }

  /** Stores to a meta; an index outside the pool is not a store the model describes. */
  function SetMeta(c: Ring, k: nat, meta: Meta): (c': Ring) {
    if k < |c.pool| then c.(pool := c.pool[k := meta]) else c
  }

  /** The effect of a producer's step. */
  function NextProducer(cfg: Config, c: Ring, act: Action): (c': Ring)
    requires Shape(cfg, c) && Enabled(cfg, c, act)
    requires !act.ScanLimit? && !act.Probe? && !act.HandOver? && !act.Move? && !act.WriteMeta?
    requires !act.ClearFinal? && !act.ClearData? && !act.ClearSize?
    ensures Shape(cfg, c') && |c'.prods| == |c.prods|
  {
    var pc := c.prods[act.p].pc;
    match act
    case ReadTail(p) => c.(prods := c.prods[p := Producer(TailRead(c.tail % cfg.blkCount), c.claims)])
    case ReadLimit(p, ok) => SetPc(c, p, if ok then LimitOk(pc.t) else Idle)
    case ReadSize(p, ok) => SetPc(c, p, if ok then SizeOk(pc.t) else Idle)
    case Cas(p, ok) =>
      if ok then
        SetPc(c, p, Won(pc.t)).(tail := (pc.t + 1) % cfg.blkCount, claims := c.claims + 1)
      else
        SetPc(c, p, Idle)
    case WriteBlkPos(p) =>
      SetPc(SetSlot(c, pc.t, c.slots[pc.t].(blkPos := pc.t)), p, Marked(pc.t))
    case WriteOffset(p) =>
      SetPc(SetSlot(c, pc.t, c.slots[pc.t].(offset := pc.t * cfg.capacity)), p, Fresh(pc.t))
    case Attach(p, data) =>
      SetPc(SetSlot(c, pc.t, c.slots[pc.t].(dataBlk := data)), p, Filling(pc.t, 0, data, false))
    case TakeMeta(p, data) => SetPc(c, p, Filling(pc.t, pc.used + 1, pc.data, pc.signal))
    case FillMeta(p, idx, meta) => SetMeta(c, c.slots[pc.t].offset + idx, meta)
    case PublishFull(p) => SetPc(SetSlot(c, pc.t, c.slots[pc.t].(size := pc.used)), p, Idle)
    case SetFinal(p) =>
      SetPc(SetSlot(c, pc.t, c.slots[pc.t].(isFinal := true)), p, Sealed(pc.t, pc.used, pc.data, pc.signal))
    case PublishFinal(p) => SetPc(SetSlot(c, pc.t, c.slots[pc.t].(size := pc.used)), p, Idle)
    case SignalMeta(p, ts) =>
      var k := c.slots[pc.t].offset;
      var body := if k < |c.pool| then c.pool[k].body else 0;
      SetPc(SetMeta(c, k, Meta(ts, 0, body)), p, Filling(pc.t, 1, 0, true))
  }

  /** The effect of a module's step. */
  function NextModule(cfg: Config, c: Ring, act: Action): Ring
    requires Shape(cfg, c) && Enabled(cfg, c, act)
    requires act.ScanLimit? || act.Probe? || act.HandOver? || act.Move?
  {
    var m := c.mods[act.id];
    match act
    case ScanLimit(id) =>
      var distance := ScanDistance(cfg, m.pick, LimPtr(cfg, c, id));
      SetMod(c, id, m.(left := if distance > 0 then distance else 0))
    case Probe(id, ok) =>
      if ok then
        SetMod(c, id, m.(pending := m.pending + [m.pick], pick := (m.pick + 1) % cfg.blkCount, left := m.left - 1))
      else
        SetMod(c, id, m.(left := 0))
    case HandOver(id) =>
      var s := m.pending[0];
      var c' := SetMod(c, id, m.(pending := m.pending[1..], held := m.held + 1, handed := m.handed + [c.slots[s]]));
      if id == 0 then c'.(frees := c.frees[|m.handed| := Freeing(s, 0)]) else c'
    case Move(id, count) =>
      match Move2Next(cfg, m.blkPtr, LimPtr(cfg, c, id), count)
      case Some(pos) => SetMod(c, id, m.(blkPtr := pos, held := m.held - count))
      case None => c
  }

  /** The effect of a module's store to a meta of a block it has. */
  function NextWrite(cfg: Config, c: Ring, act: Action): Ring
    requires Shape(cfg, c) && Enabled(cfg, c, act) && act.WriteMeta?
  {
    var k := c.mods[act.id].handed[act.j].offset + act.idx;
    if k < |c.pool| then SetMeta(c, k, c.pool[k].(body := act.body)) else c
  }

  /** The effect of one store of `FreeFullMetaBlk`. */
  function NextFree(cfg: Config, c: Ring, act: Action): Ring
    requires Shape(cfg, c) && Enabled(cfg, c, act)
    requires act.ClearFinal? || act.ClearData? || act.ClearSize?
  {
    var s := c.frees[act.j].pos;
    match act
    case ClearFinal(j) =>
      SetSlot(c, s, c.slots[s].(isFinal := false)).(frees := c.frees[j := Freeing(s, 1)])
    case ClearData(j) =>
      SetSlot(c, s, c.slots[s].(dataBlk := 0)).(frees := c.frees[j := Freeing(s, 2)])
    case ClearSize(j) =>
      SetSlot(c, s, c.slots[s].(size := 0)).(frees := c.frees - {j})
  }

  function Next(cfg: Config, c: Ring, act: Action): (c': Ring)
    requires Shape(cfg, c) && Enabled(cfg, c, act)
    ensures Shape(cfg, c') && |c'.prods| == |c.prods|
  {
    if act.ScanLimit? || act.Probe? || act.HandOver? || act.Move? then NextModule(cfg, c, act)
    else if act.WriteMeta? then NextWrite(cfg, c, act)
    else if act.ClearFinal? || act.ClearData? || act.ClearSize? then NextFree(cfg, c, act)
    else NextProducer(cfg, c, act)
  }

  /** The assertions that the code of the claim, of `GetMeta4PktBlk` and of the signals makes about the
      shared memory, at the step where each is checked. */
  predicate Asserts(cfg: Config, c: Ring, act: Action)
    requires Shape(cfg, c) && Enabled(cfg, c, act)
  {
    match act
    case WriteBlkPos(p) =>
      var t := c.prods[p].pc.t;
      c.slots[t].blkPos == 0 || c.slots[t].blkPos == t
    case WriteOffset(p) =>
      var t := c.prods[p].pc.t;
      c.slots[t].offset == 0 || c.slots[t].offset == t * cfg.capacity
    case Attach(p, _) =>
      var t := c.prods[p].pc.t;
      c.slots[t].size == 0 && !c.slots[t].isFinal
    case TakeMeta(p, data) =>
      var pc := c.prods[p].pc;
      c.slots[pc.t].dataBlk == data && GetMetaInBlk(cfg, c.slots[pc.t], pc.used).Some?
    case SignalMeta(p, _) =>
      var t := c.prods[p].pc.t;
      c.slots[t].dataBlk == 0 && GetMetaInBlk(cfg, c.slots[t], 0).Some?
    case _ => true
  }

  // ------------------------------------------------------------------- runs

  predicate Legal(cfg: Config, c: Ring, acts: seq<Action>)
    requires Shape(cfg, c)
    decreases |acts|
  {
    acts == [] || (Enabled(cfg, c, acts[0]) && Legal(cfg, Next(cfg, c, acts[0]), acts[1..]))
  }

  function Exec(cfg: Config, c: Ring, acts: seq<Action>): (c': Ring)
    requires Shape(cfg, c) && Legal(cfg, c, acts)
    ensures Shape(cfg, c') && |c'.prods| == |c.prods|
    decreases |acts|
  {
    if acts == [] then c else Exec(cfg, Next(cfg, c, acts[0]), acts[1..])
  }

  /** At a successful compare-and-swap the tail has not made a full lap since it was read, or it has and both
      checks of `GetEmptyMetaBlk` would pass again. */
  predicate SafeClaim(cfg: Config, c: Ring, act: Action)
    requires Shape(cfg, c)
  {
    act.Cas? && act.ok && act.p < |c.prods| ==> c.claims < c.prods[act.p].seen + cfg.blkCount || ChecksPass(cfg, c)
  }

  /** The two checks of `GetEmptyMetaBlk`, on the current tail. */
  predicate ChecksPass(cfg: Config, c: Ring)
    requires Shape(cfg, c)
  {
    (c.tail + 2) % cfg.blkCount != c.mods[0].blkPtr && c.tail < |c.slots| && c.slots[c.tail].size == 0
  }

  predicate SafeRun(cfg: Config, c: Ring, acts: seq<Action>)
    requires Shape(cfg, c) && Legal(cfg, c, acts)
    decreases |acts|
  {
    acts == [] || (SafeClaim(cfg, c, acts[0]) && SafeRun(cfg, Next(cfg, c, acts[0]), acts[1..]))
  }
}
