/** The specification of the packet ring: an unbounded log of claimed meta blocks. A claim appends an
    entry that is never reused, every cursor is a plain counter, and publishing and freeing are stages
    an entry goes through once. What the modular ring promises is stated here without a modulus. */
module RingLog {
  import opened RingTypes
  import opened Modular

  datatype Stage = Open | Full | NoFinal | NoData | Freed

  /** A claimed block. `metas` are the metas its producer stored, `written` the bodies that modules have
      written since. Once published, only `stage` and `written` change: the entry keeps what was published. */
  datatype Entry = Entry(owner: nat, dataBlk: nat, isFinal: bool, size: nat, signal: bool,
                         marked: bool, placed: bool, metas: map<nat, Meta>, written: map<nat, nat>, stage: Stage)

  /** A module has moved past the first `moved` entries, was handed `handed`, has picked `picked`,
      and its scan in progress may look at `left` more. */
  datatype Cursor = Cursor(moved: nat, handed: nat, picked: nat, left: nat)

  /** A producer. `calls` lists the data block of every meta it took since it last finalised, and
      `batch` the entries it has published since then. */
  datatype Writer = Writer(pc: Pc, calls: seq<nat>, batch: seq<nat>)

  datatype Log = Log(entries: seq<Entry>, cursors: seq<Cursor>, writers: seq<Writer>)

  ghost predicate Shape(cfg: Config, a: Log) {
    |a.cursors| == cfg.modCount && cfg.modCount >= 1
  }

  /** What module `id` is limited by: the end of the log, or what the module before it moved past. */
  function Ahead(cfg: Config, a: Log, id: nat): nat
    requires Shape(cfg, a) && id < cfg.modCount
  {
    if id == 1 || cfg.modCount == 1 then |a.entries|
    else if id == 0 then a.cursors[cfg.modCount - 1].moved
    else a.cursors[id - 1].moved
  }

  // ------------------------------------------------------------------ steps

  function RoomAt(cfg: Config, t: nat): nat
    requires cfg.blkCount > 0
  {
    Room(cfg, Wrap(t, cfg.blkCount))
  }

  /** The capacity that decides when a held entry is full. */
  function CapacityAt(cfg: Config, t: nat): int
    requires cfg.blkCount > 0
  {
    Capacity(cfg, Wrap(t, cfg.blkCount) * cfg.capacity)
  }

  /** Entry `j` is in the hands of module `id`. */
  predicate Has(a: Log, id: nat, j: nat)
    requires id < |a.cursors| && j < |a.entries|
  {
    j < a.cursors[id].handed && (a.cursors[id].moved <= j || (id == 0 && a.entries[j].stage != Freed))
  }

  /** A claim keeps the distance, and the block that had the slot before is freed. */
  predicate MayClaim(cfg: Config, a: Log)
    requires Shape(cfg, a) && cfg.blkCount > 0
  {
    var end := |a.entries|;
    && end + 3 <= a.cursors[0].moved + cfg.blkCount
    && (end >= cfg.blkCount ==> a.entries[end - cfg.blkCount].stage == Freed)
  }

  predicate Enabled(cfg: Config, a: Log, act: Action)
    requires Shape(cfg, a) && cfg.blkCount > 0
  {
    var end := |a.entries|;
    match act
    case ReadTail(p) => p < |a.writers| && a.writers[p].pc.Idle?
    case ReadLimit(p, ok) =>
      p < |a.writers| && a.writers[p].pc.TailRead? &&
      (ok && a.writers[p].pc.t == end ==> end + 3 <= a.cursors[0].moved + cfg.blkCount)
    case ReadSize(p, ok) =>
      p < |a.writers| && a.writers[p].pc.LimitOk? &&
      (ok && a.writers[p].pc.t == end && end >= cfg.blkCount ==> a.entries[end - cfg.blkCount].stage == Freed)
    case Cas(p, ok) => p < |a.writers| && a.writers[p].pc.SizeOk? && (ok ==> MayClaim(cfg, a))
    case WriteBlkPos(p) => p < |a.writers| && a.writers[p].pc.Won? && a.writers[p].pc.t < end
    case WriteOffset(p) => p < |a.writers| && a.writers[p].pc.Marked? && a.writers[p].pc.t < end
    case Attach(p, data) => p < |a.writers| && a.writers[p].pc.Fresh? && a.writers[p].pc.t < end
    case TakeMeta(p, data) =>
      p < |a.writers| && a.writers[p].pc.Filling? && a.writers[p].pc.t < end && !a.writers[p].pc.signal &&
      a.writers[p].pc.data == data && (a.writers[p].pc.used == 0 || a.writers[p].pc.used < CapacityAt(cfg,
          a.writers[p].pc.t))
    case FillMeta(p, idx, meta) =>
      p < |a.writers| && a.writers[p].pc.Filling? && a.writers[p].pc.t < end && !a.writers[p].pc.signal &&
      idx < a.writers[p].pc.used
    case PublishFull(p) =>
      p < |a.writers| && a.writers[p].pc.Filling? && a.writers[p].pc.t < end && !a.writers[p].pc.signal &&
      a.writers[p].pc.used > 0 && a.writers[p].pc.used >= CapacityAt(cfg, a.writers[p].pc.t)
    case SetFinal(p) =>
      p < |a.writers| && a.writers[p].pc.Filling? && a.writers[p].pc.t < end && a.writers[p].pc.used > 0
    case PublishFinal(p) => p < |a.writers| && a.writers[p].pc.Sealed? && a.writers[p].pc.t < end
    case SignalMeta(p, ts) => p < |a.writers| && a.writers[p].pc.Fresh? && a.writers[p].pc.t < end
    case ScanLimit(id) =>
      id < cfg.modCount && a.cursors[id].left == 0 && a.cursors[id].picked == a.cursors[id].handed &&
      a.cursors[id].picked <= Ahead(cfg, a, id)
    case Probe(id, ok) =>
      id < cfg.modCount && a.cursors[id].left > 0 && a.cursors[id].picked < end &&
      (ok ==> a.entries[a.cursors[id].picked].stage != Open)
    case HandOver(id) =>
      id < cfg.modCount && a.cursors[id].left == 0 && a.cursors[id].handed < a.cursors[id].picked
    case Move(id, count) => id < cfg.modCount && a.cursors[id].moved + count <= a.cursors[id].handed
    case WriteMeta(id, j, idx, body) => id < cfg.modCount && j < end && Has(a, id, j) && idx < a.entries[j].size
    case ClearFinal(j) => j < end && j < a.cursors[0].handed && a.entries[j].stage == Full
    case ClearData(j) => j < end && j < a.cursors[0].handed && a.entries[j].stage == NoFinal
    case ClearSize(j) => j < end && j < a.cursors[0].handed && a.entries[j].stage == NoData
  }

  function SetPc(a: Log, p: nat, pc: Pc): (a': Log)
    requires p < |a.writers|
  {
    a.(writers := a.writers[p := a.writers[p].(pc := pc)])
  }

  function SetEntry(a: Log, t: nat, e: Entry): (a': Log)
    requires t < |a.entries|
  {
    a.(entries := a.entries[t := e])
  }

  function SetCursor(a: Log, id: nat, k: Cursor): (a': Log)
    requires id < |a.cursors|
  {
    a.(cursors := a.cursors[id := k])
  }

  function NewEntry(p: nat): Entry {
    Entry(p, 0, false, 0, false, false, false, map[], map[], Open)
  }

  /** The claiming steps. Only a successful compare-and-swap changes the log: it appends. */
  function NextClaim(cfg: Config, a: Log, act: Action): Log
    requires Shape(cfg, a) && cfg.blkCount > 0 && Enabled(cfg, a, act)
    requires act.ReadTail? || act.ReadLimit? || act.ReadSize? || act.Cas?
  {
    var pc := a.writers[act.p].pc;
    match act
    case ReadTail(p) => SetPc(a, p, TailRead(|a.entries|))
    case ReadLimit(p, ok) => SetPc(a, p, if ok then LimitOk(pc.t) else Idle)
    case ReadSize(p, ok) => SetPc(a, p, if ok then SizeOk(pc.t) else Idle)
    case Cas(p, ok) =>
      if ok then SetPc(a, p, Won(|a.entries|)).(entries := a.entries + [NewEntry(p)])
      else SetPc(a, p, Idle)
  }

  predicate IsFilling(act: Action) {
    || act.WriteBlkPos? || act.WriteOffset? || act.Attach? || act.TakeMeta? || act.FillMeta?
    || act.PublishFull? || act.SetFinal? || act.PublishFinal? || act.SignalMeta?
  }

  /** What a producer's step does to the entry it holds. */
  function Touched(e: Entry, pc: Pc, act: Action): Entry
    requires IsFilling(act) && (act.PublishFull? ==> pc.Filling?)
    requires act.PublishFinal? ==> pc.Sealed?
  {
    match act
    case WriteBlkPos(_) => e.(marked := true)
    case WriteOffset(_) => e.(placed := true)
    case Attach(_, data) => e.(dataBlk := data)
    case TakeMeta(_, _) => e
    case FillMeta(_, idx, meta) => e.(metas := e.metas[idx := meta])
    case PublishFull(_) => e.(size := pc.used, stage := Full)
    case SetFinal(_) => e.(isFinal := true)
    case PublishFinal(_) => e.(size := pc.used, stage := Full)
    case SignalMeta(_, ts) => e.(signal := true, metas := e.metas[0 := Meta(ts, 0, 0)])
  }

  /** What it does to the producer. */
  function Advanced(w: Writer, act: Action): Writer
    requires IsFilling(act) && !w.pc.Idle?
    requires act.TakeMeta? || act.SetFinal? ==> w.pc.Filling?
    requires act.PublishFinal? ==> w.pc.Sealed?
  {
    match act
    case WriteBlkPos(_) => w.(pc := Marked(w.pc.t))
    case WriteOffset(_) => w.(pc := Fresh(w.pc.t))
    case Attach(_, data) => w.(pc := Filling(w.pc.t, 0, data, false))
    case TakeMeta(_, data) =>
      w.(pc := Filling(w.pc.t, w.pc.used + 1, w.pc.data, w.pc.signal), calls := w.calls + [data])
    case FillMeta(_, _, _) => w
    case PublishFull(_) => w.(pc := Idle, batch := w.batch + [w.pc.t])
    case SetFinal(_) => w.(pc := Sealed(w.pc.t, w.pc.used, w.pc.data, w.pc.signal))
    case PublishFinal(_) => if w.pc.signal then w.(pc := Idle) else Writer(Idle, [], [])
    case SignalMeta(_, _) => w.(pc := Filling(w.pc.t, 1, 0, true))
  }

  function NextFilling(cfg: Config, a: Log, act: Action): Log
    requires Shape(cfg, a) && cfg.blkCount > 0 && Enabled(cfg, a, act) && IsFilling(act)
  {
    var w := a.writers[act.p];
    SetEntry(a, w.pc.t, Touched(a.entries[w.pc.t], w.pc, act)).(writers := a.writers[act.p := Advanced(w, act)])
  }

  function NextModule(cfg: Config, a: Log, act: Action): Log
    requires Shape(cfg, a) && cfg.blkCount > 0 && Enabled(cfg, a, act)
    requires act.ScanLimit? || act.Probe? || act.HandOver? || act.Move?
  {
    var k := a.cursors[act.id];
    match act
    case ScanLimit(id) => SetCursor(a, id, k.(left := Ahead(cfg, a, id) - k.picked))
    case Probe(id, ok) => SetCursor(a, id, if ok then k.(picked := k.picked + 1, left := k.left - 1) else k.(left := 0))
    case HandOver(id) => SetCursor(a, id, k.(handed := k.handed + 1))
    case Move(id, count) => SetCursor(a, id, k.(moved := k.moved + count))
  }

  function NextWrite(cfg: Config, a: Log, act: Action): Log
    requires Shape(cfg, a) && cfg.blkCount > 0 && Enabled(cfg, a, act) && act.WriteMeta?
  {
    var e := a.entries[act.j];
    SetEntry(a, act.j, e.(written := e.written[act.idx := act.body]))
  }

  function NextFree(cfg: Config, a: Log, act: Action): Log
    requires Shape(cfg, a) && cfg.blkCount > 0 && Enabled(cfg, a, act)
    requires act.ClearFinal? || act.ClearData? || act.ClearSize?
  {
    var e := a.entries[act.j];
    match act
    case ClearFinal(j) => SetEntry(a, j, e.(stage := NoFinal))
    case ClearData(j) => SetEntry(a, j, e.(stage := NoData))
    case ClearSize(j) => SetEntry(a, j, e.(stage := Freed))
  }

  function Next(cfg: Config, a: Log, act: Action): (a': Log)
    requires Shape(cfg, a) && cfg.blkCount > 0 && Enabled(cfg, a, act)
    ensures Shape(cfg, a') && |a'.writers| == |a.writers|
  {
    if IsFilling(act) then NextFilling(cfg, a, act)
    else if act.ReadTail? || act.ReadLimit? || act.ReadSize? || act.Cas? then NextClaim(cfg, a, act)
    else if act.ClearFinal? || act.ClearData? || act.ClearSize? then NextFree(cfg, a, act)
    else if act.WriteMeta? then NextWrite(cfg, a, act)
    else NextModule(cfg, a, act)
  }

  function InitLog(cfg: Config, producers: nat): Log {
    Log([], seq(cfg.modCount, _ => Cursor(0, 0, 0, 0)), seq(producers, _ => Writer(Idle, [], [])))
  }

  // ---------------------------------------------------------- the invariant

  /** A module's counters are in order, it is limited by the one before it, and it picks only what
      has been published. */
  ghost predicate CursorOk(cfg: Config, a: Log, id: nat)
    requires Shape(cfg, a) && id < cfg.modCount
  {
    var k := a.cursors[id];
    && k.moved <= k.handed <= k.picked
    && k.picked + k.left <= Ahead(cfg, a, id)
    && k.picked <= |a.entries|
    && forall x {:trigger a.entries[x]} :: 0 <= x < k.picked ==> a.entries[x].stage != Open
  }

  /** An entry is either open and held by its owner, or published; it is freed only after module 0
      was handed it, and it is freed before its slot can be claimed again. */
  ghost predicate EntryOk(cfg: Config, a: Log, x: nat)
    requires Shape(cfg, a) && x < |a.entries| && cfg.blkCount > 0
  {
    var e := a.entries[x];
    && (e.stage == Open ==> e.written == map[])
    && (forall i :: i in e.written ==> i < RoomAt(cfg, x))
    && (e.stage == Open ==> e.owner < |a.writers| && a.writers[e.owner].pc.Holds() && a.writers[e.owner].pc.t == x)
    && (e.stage != Open ==> e.marked && e.placed && 1 <= e.size <= RoomAt(cfg, x))
    && (e.stage != Open && e.stage != Full ==> x < a.cursors[0].handed)
    && (x + cfg.blkCount < |a.entries| ==> e.stage == Freed)
    && (forall i :: i in e.metas ==> i < RoomAt(cfg, x))
    && (e.signal && e.stage != Open ==>
         e.size == 1 && e.dataBlk == 0 && e.isFinal && 0 in e.metas && e.metas[0].pktLen == 0)
  }

  /** The entry a producer holds is as far as the producer is. */
  ghost predicate HeldOk(cfg: Config, e: Entry, p: nat, pc: Pc)
    requires cfg.blkCount > 0 && pc.Holds()
  {
    && e.owner == p && e.stage == Open && e.size == 0
    && (pc.Won? ==> e == NewEntry(p))
    && (pc.Marked? ==> e == NewEntry(p).(marked := true))
    && (pc.Fresh? ==> e == NewEntry(p).(marked := true, placed := true))
    && (pc.Filling? || pc.Sealed? ==>
        && e.marked && e.placed && e.dataBlk == pc.data && e.isFinal == pc.Sealed? && e.signal == pc.signal
        && pc.used <= RoomAt(cfg, pc.t)
        && (pc.Sealed? ==> pc.used >= 1)
        && (forall i :: i in e.metas ==> i < pc.used)
        && (pc.signal ==> pc.used == 1 && pc.data == 0 && 0 in e.metas && e.metas[0].pktLen == 0))
  }

  ghost predicate WriterOk(cfg: Config, a: Log, p: nat)
    requires Shape(cfg, a) && p < |a.writers| && cfg.blkCount > 0
  {
    var pc := a.writers[p].pc;
    && (pc.Trying() ==> pc.t <= |a.entries|)
    && ((pc.LimitOk? || pc.SizeOk?) && pc.t == |a.entries| ==> |a.entries| + 3 <= a.cursors[0].moved + cfg.blkCount)
    && (pc.SizeOk? && pc.t == |a.entries| && |a.entries| >= cfg.blkCount ==>
         a.entries[|a.entries| - cfg.blkCount].stage == Freed)
    && (pc.Holds() ==> pc.t < |a.entries| && HeldOk(cfg, a.entries[pc.t], p, pc))
  }

  /** Module 0 is at most two slots short of a lap behind the end of the log. */
  ghost predicate WidthOk(cfg: Config, a: Log)
    requires Shape(cfg, a)
  {
    |a.entries| + 2 <= a.cursors[0].moved + cfg.blkCount
  }

  ghost predicate Inv(cfg: Config, a: Log) {
    && Shape(cfg, a) && cfg.blkCount >= 3
    && WidthOk(cfg, a)
    && (forall id :: 0 <= id < cfg.modCount ==> CursorOk(cfg, a, id))
    && (forall x :: 0 <= x < |a.entries| ==> EntryOk(cfg, a, x))
    && (forall p :: 0 <= p < |a.writers| ==> WriterOk(cfg, a, p))
  }

  lemma InitInv(cfg: Config, producers: nat)
    requires cfg.modCount >= 1 && cfg.blkCount >= 3
    ensures Inv(cfg, InitLog(cfg, producers))
  {
  }

  /** Every module is behind the ones before it and ahead of module 0. */
  lemma {:induction false} ChainDown(cfg: Config, a: Log, i: nat, j: nat)
    requires Inv(cfg, a) && 1 <= i <= j < cfg.modCount
    ensures a.cursors[j].moved <= a.cursors[i].moved
    decreases j
  {
    if i < j {
      ChainDown(cfg, a, i, j - 1);
      assert CursorOk(cfg, a, j);
    }
  }

  lemma ChainBounds(cfg: Config, a: Log, id: nat)
    requires Inv(cfg, a) && id < cfg.modCount
    ensures a.cursors[0].moved <= a.cursors[id].moved <= Ahead(cfg, a, id) <= |a.entries|
    ensures a.cursors[0].handed <= a.cursors[id].handed
  {
    assert CursorOk(cfg, a, 0) && CursorOk(cfg, a, id);
    if cfg.modCount > 1 {
      assert CursorOk(cfg, a, 1) && CursorOk(cfg, a, cfg.modCount - 1);
      ChainDown(cfg, a, 1, cfg.modCount - 1);
      if id > 0 {
        ChainDown(cfg, a, id, cfg.modCount - 1);
        if id > 1 {
          ChainDown(cfg, a, 1, id - 1);
          assert CursorOk(cfg, a, id - 1);
        }
      }
    }
  }
}
