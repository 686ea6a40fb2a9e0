/** The ring's objects as the program holds them: the shared memory, a module's `CPacketRing` and the
    capture side's `CProducerRing`. Every method is a run of the step system: the ghost argument `c` is
    any state of the whole system that agrees with the object, and `acts` the steps the call took. */
module RingClasses {
  import opened RingTypes
  import opened RingGeometry
  import opened RingRuns
  import opened RingWords
  import opened Modular
  import S = RingSteps

  /** The shared memory. */
  class SharedRing {
    const cfg: Config
    var tailMetaBlk: nat
    const slots: array<Slot>
    const pool: array<Meta>
    const blkPtr: array<nat>

    ghost predicate Valid()
      reads this
    {
      && cfg.blkCount >= 1 && cfg.modCount >= 1
      && slots.Length == cfg.blkCount && pool.Length == cfg.metaTotal && blkPtr.Length == cfg.modCount
    }

    /** The shared part of `c` is this memory. */
    ghost predicate Shows(c: S.Ring)
      reads this, slots, pool, blkPtr
    {
      && Valid() && S.Shape(cfg, c)
      && c.tail == tailMetaBlk && c.slots == slots[..] && c.pool == pool[..]
      && (forall id :: 0 <= id < blkPtr.Length ==> c.mods[id].blkPtr == blkPtr[id])
    }

    /** `InitRing`: zeroed shared memory. */
    constructor (cfg: Config)
      requires cfg.blkCount >= 1 && cfg.modCount >= 1
      ensures Valid() && this.cfg == cfg && fresh(slots) && fresh(pool) && fresh(blkPtr)
      ensures tailMetaBlk == 0
      ensures forall s :: 0 <= s < slots.Length ==> slots[s] == ZERO_SLOT
      ensures forall id :: 0 <= id < blkPtr.Length ==> blkPtr[id] == 0
    {
      this.cfg := cfg;
      tailMetaBlk := 0;
      slots := new Slot[cfg.blkCount](_ => ZERO_SLOT);
      pool := new Meta[cfg.metaTotal](_ => Meta(0, 0, 0));
      blkPtr := new nat[cfg.modCount](_ => 0);
    }

    method LimPtr(id: nat, ghost c: S.Ring) returns (lim: nat)
      requires Shows(c) && id < cfg.modCount
      ensures lim == S.LimPtr(cfg, c, id)
    {
      var dep := if id == 0 then cfg.modCount - 1 else id - 1;
      if id == 1 || id == dep {
        lim := tailMetaBlk % cfg.blkCount;
      } else {
        lim := blkPtr[dep];
      }
    }

    /** `GetNextMetaBlks`: picks the ready blocks from `index` on, as far as the limit allows. */
    method GetNextMetaBlks(id: nat, index: nat, metaBlks: seq<nat>, ghost c: S.Ring)
      returns (index': nat, metaBlks': seq<nat>, ghost acts: seq<Action>)
      requires Shows(c) && id < cfg.modCount
      requires c.mods[id].pick == index < cfg.blkCount && c.mods[id].pending == metaBlks == [] && c.mods[id].left == 0
      ensures S.Legal(cfg, c, acts) && |acts| >= 1 && acts[0] == ScanLimit(id)
      ensures forall i :: 1 <= i < |acts| ==> acts[i].Probe? && acts[i].id == id
      ensures index' < cfg.blkCount && forall i :: 0 <= i < |metaBlks'| ==> metaBlks'[i] < cfg.blkCount
      ensures S.Exec(cfg, c, acts) == S.SetMod(c, id, c.mods[id].(pick := index', pending := metaBlks', left := 0))
      ensures ReadyRun(cfg, slots[..], index, metaBlks') && index' == Wrap(index + |metaBlks'|, cfg.blkCount)
      ensures var distance := S.ScanDistance(cfg, index, S.LimPtr(cfg, c, id));
        |metaBlks'| <= distance && (|metaBlks'| == distance || slots[index'].size == 0)
    {
      index', metaBlks' := index, metaBlks;
      var limPtr := LimPtr(id, c);
      var distance := if index' > limPtr then limPtr + cfg.blkCount - index' else limPtr - index';

      ghost var cc: S.Ring;
      acts, cc := Started(cfg, c, id, distance);
      ghost var all := distance;
      while distance > 0
        invariant 0 <= distance && distance + |metaBlks'| == all
        invariant ReadyRun(cfg, slots[..], index, metaBlks') && index' == Wrap(index + |metaBlks'|, cfg.blkCount)
        invariant S.Legal(cfg, c, acts) && cc == S.Exec(cfg, c, acts)
        invariant ScanSteps(acts, id)
        invariant index' < cfg.blkCount && forall i :: 0 <= i < |metaBlks'| ==> metaBlks'[i] < cfg.blkCount
        invariant cc == S.SetMod(c, id, c.mods[id].(pick := index', pending := metaBlks', left := distance))
        decreases distance
      {
        ghost var m := c.mods[id].(pick := index', pending := metaBlks', left := distance);
        if slots[index'].size == 0 {
          acts, cc := Stopped(cfg, c, id, m, acts);
          distance := 0;
          break;
        }
        acts, cc := Picked(cfg, c, id, m, acts);
        LongerRun(cfg, slots[..], index, metaBlks', index');
        metaBlks' := metaBlks' + [index'];
        index' := (index' + 1) % cfg.blkCount;
        distance := distance - 1;
      }
    }

    /** `Move2NextMetaBlk`: the new position, or -3. For a count of blocks that were handed over it is the step. */
    method Move2NextMetaBlk(id: nat, count: int, ghost c: S.Ring) returns (r: int)
      requires Shows(c) && id < cfg.modCount
      modifies blkPtr
      ensures var pos := Move2NextWord(cfg, c.mods[id].blkPtr, S.LimPtr(cfg, c, id), count);
        if pos.Some? then r == pos.value && blkPtr[..] == old(blkPtr[..])[id := pos.value]
        else r == -3 && blkPtr[..] == old(blkPtr[..])
      ensures count >= 0 && InWords(cfg, c.mods[id].blkPtr, S.LimPtr(cfg, c, id), count) ==>
        S.Enabled(cfg, c, Move(id, count)) ==> Shows(S.Next(cfg, c, Move(id, count)))
    {
      var limPtr := LimPtr(id, c);
      if limPtr < blkPtr[id] {
        limPtr := limPtr + cfg.blkCount;
      }
      limPtr := limPtr % WORD;
      ghost var cur := blkPtr[id];
      var sum := (blkPtr[id] + count) % WORD;
      r := -3;
      if sum <= limPtr {
        blkPtr[id] := sum % cfg.blkCount;
        r := blkPtr[id];
      }
      if count >= 0 && InWords(cfg, cur, S.LimPtr(cfg, c, id), count) {
        WordMoveAgrees(cfg, cur, S.LimPtr(cfg, c, id), count);
      }
    }

    method IsRingEmpty(ghost c: S.Ring) returns (empty: bool)
      requires Shows(c)
      ensures empty <==> S.IsRingEmpty(cfg, c)
    {
      empty := tailMetaBlk % cfg.blkCount == blkPtr[0];
    }

    /** `GetEmptyMetaBlk` without another thread in between: NULL when the ring is full or the next
        block is not free, else the claimed block. */
    method GetEmptyMetaBlk(ghost p: nat, ghost c: S.Ring) returns (blk: Option<nat>, ghost acts: seq<Action>)
      requires Shows(c) && p < |c.prods| && c.prods[p].pc == Idle && tailMetaBlk < cfg.blkCount
      modifies this`tailMetaBlk, slots
      ensures S.Legal(cfg, c, acts) && Shows(S.Exec(cfg, c, acts)) && tailMetaBlk < cfg.blkCount
      ensures blk.Some? <==> (old(tailMetaBlk) + 2) % cfg.blkCount != blkPtr[0] && old(slots[tailMetaBlk].size) == 0
      ensures blk.Some? ==> blk.value == old(tailMetaBlk) && acts == ClaimSteps(p) + [WriteBlkPos(p), WriteOffset(p)]
      ensures blk.Some? ==> tailMetaBlk == (blk.value + 1) % cfg.blkCount
      ensures blk.Some? ==>
        slots[..] == old(slots[..])[blk.value := old(slots[tailMetaBlk]).(blkPos := blk.value,
          offset := blk.value * cfg.capacity)]
      ensures blk.Some? ==> S.Exec(cfg, c, acts).prods == c.prods[p := S.Producer(Fresh(blk.value), c.claims)]
      ensures S.Exec(cfg, c, acts).mods == c.mods && S.Exec(cfg, c, acts).frees == c.frees
      ensures blk.None? ==> S.Exec(cfg, c, acts).prods[p].pc == Idle
      ensures blk.None? ==> slots[..] == old(slots[..]) && tailMetaBlk == old(tailMetaBlk)
    {
      var tailPos := tailMetaBlk % cfg.blkCount;
      SmallPos(tailMetaBlk, cfg.blkCount);
      var nextPos := (tailPos + 1) % cfg.blkCount;
      var checkPos := (tailPos + 2) % cfg.blkCount;
      if checkPos == blkPtr[0] {
        acts := RefusedRun(cfg, c, p);
        return None, acts;
      }
      if slots[tailPos].size != 0 {
        acts := RefusedRun(cfg, c, p);
        return None, acts;
      }
      acts := PlacedRun(cfg, c, p);
      tailMetaBlk := nextPos;
      slots[tailPos] := slots[tailPos].(blkPos := tailPos);
      slots[tailPos] := slots[tailPos].(offset := tailPos * cfg.capacity);
      return Some(tailPos), acts;
    }

    /** `FreeFullMetaBlk` on the `j`-th block module 0 was handed, which is in slot `s`. */
    method FreeFullMetaBlk(s: nat, ghost j: nat, ghost c: S.Ring) returns (ghost acts: seq<Action>)
      requires Shows(c) && s < cfg.blkCount && j in c.frees && c.frees[j] == Freeing(s, 0)
      modifies slots
      ensures acts == [ClearFinal(j), ClearData(j), ClearSize(j)]
      ensures S.Legal(cfg, c, acts) && Shows(S.Exec(cfg, c, acts))
      ensures S.Exec(cfg, c, acts) == c.(slots := slots[..], frees := c.frees - {j})
      ensures slots[..] == old(slots[..])[s := old(slots[s]).(isFinal := false, dataBlk := 0, size := 0)]
    {
      ghost var cc: S.Ring;
      acts, cc := Extend(cfg, c, [], ClearFinal(j));
      slots[s] := slots[s].(isFinal := false);
      acts, cc := Extend(cfg, c, acts, ClearData(j));
      slots[s] := slots[s].(dataBlk := 0);
      acts, cc := Extend(cfg, c, acts, ClearSize(j));
      slots[s] := slots[s].(size := 0);
      assert cc.frees == c.frees - {j};
      assert cc.slots == slots[..];
    }
  }

  /** A module's view of the ring: `CPacketRing`. */
  class PacketRing {
    const shared: SharedRing
    const moduleId: nat
    var metaBlkPickPos: nat
    var metaBlks: seq<nat>

    ghost predicate Shows(c: S.Ring)
      reads this, shared, shared.slots, shared.pool, shared.blkPtr
    {
      && shared.Shows(c) && moduleId < shared.cfg.modCount
      && metaBlkPickPos < shared.cfg.blkCount
      && c.mods[moduleId].pick == metaBlkPickPos && c.mods[moduleId].pending == metaBlks && c.mods[moduleId].left == 0
      && (forall i :: 0 <= i < |metaBlks| ==> metaBlks[i] < shared.cfg.blkCount)
    }

    constructor (shared: SharedRing, moduleId: nat)
      ensures this.shared == shared && this.moduleId == moduleId && metaBlkPickPos == 0 && metaBlks == []
    {
      this.shared := shared;
      this.moduleId := moduleId;
      metaBlkPickPos := 0;
      metaBlks := [];
    }

    /** `GetNextFullMetaBlk`: the next ready block, or NULL; it looks for more only when its list is empty. */
    method GetNextFullMetaBlk(ghost c: S.Ring) returns (blk: Option<nat>, ghost acts: seq<Action>)
      requires Shows(c)
      modifies this
      ensures S.Legal(shared.cfg, c, acts) && Shows(S.Exec(shared.cfg, c, acts))
      ensures forall i :: 0 <= i < |acts| ==>
        (acts[i].ScanLimit? || acts[i].Probe? || acts[i].HandOver?) && acts[i].id == moduleId
      ensures var h, h' := c.mods[moduleId].handed, S.Exec(shared.cfg, c, acts).mods[moduleId].handed;
        match blk
        case Some(s) => s < shared.cfg.blkCount && s == S.NextPos(c, moduleId) && h' == h + [shared.slots[s]]
        case None => h' == h && metaBlks == []
      ensures blk.Some? <==> S.NextReady(shared.cfg, c, moduleId)
    {
      acts := [];
      ghost var cc := c;
      if |metaBlks| == 0 {
        metaBlkPickPos, metaBlks, acts := shared.GetNextMetaBlks(moduleId, metaBlkPickPos, metaBlks, c);
        cc := S.Exec(shared.cfg, c, acts);
        if |metaBlks| == 0 {
          return None, acts;
        }
      }
      var s := metaBlks[0];
      acts, cc := Extend(shared.cfg, c, acts, HandOver(moduleId));
      metaBlks := metaBlks[1..];
      return Some(s), acts;
    }

    /** `GetPktMetaInBlk`: the index of a meta, or NULL. */
    method GetPktMetaInBlk(s: nat, index: nat) returns (k: Option<nat>)
      requires shared.Valid() && s < shared.slots.Length
      ensures k == S.GetMetaInBlk(shared.cfg, shared.slots[s], index)
      ensures var blk := shared.slots[s];
        if index < (if blk.size == 0 then shared.cfg.capacity else blk.size) then k == Some(blk.offset + index)
        else k == None
    {
      var blk := shared.slots[s];
      if blk.size > 0 && index >= blk.size {
        return None;
      }
      if blk.size == 0 && index >= shared.cfg.capacity {
        return None;
      }
      return Some(blk.offset + index);
    }

    /** `IsStopSignal` on a block of the ring. */
    method IsStopSignal(s: nat, ghost c: S.Ring) returns (stop: bool)
      requires shared.Shows(c) && s < shared.slots.Length && shared.slots[s].offset < shared.pool.Length
      ensures stop <==> S.IsStopSignal(shared.cfg, c, s)
    {
      if shared.slots[s].dataBlk == 0 && shared.slots[s].isFinal && shared.slots[s].size == 1 {
        var k := GetPktMetaInBlk(s, 0);
        return shared.pool[k.value].ts == 0 && shared.pool[k.value].pktLen == 0;
      }
      return false;
    }

    /** `IsTimeoutSignal` on a block of the ring. */
    method IsTimeoutSignal(s: nat, ghost c: S.Ring) returns (timeout: bool)
      requires shared.Shows(c) && s < shared.slots.Length && shared.slots[s].offset < shared.pool.Length
      ensures timeout <==> S.IsTimeoutSignal(shared.cfg, c, s)
    {
      if shared.slots[s].dataBlk == 0 && shared.slots[s].isFinal && shared.slots[s].size == 1 {
        var k := GetPktMetaInBlk(s, 0);
        return shared.pool[k.value].ts != 0 && shared.pool[k.value].pktLen == 0;
      }
      return false;
    }
  }

  /** The capture side: `CProducerRing`. Capture id `k` is producer `k` of the step system. */
  class ProducerRing {
    const shared: SharedRing
    const curMetaBlock: array<Option<nat>>
    const usedMetaInBlk: array<nat>

    ghost predicate Valid()
      reads this, shared
    {
      && shared.Valid() && shared.tailMetaBlk < shared.cfg.blkCount
      && usedMetaInBlk != shared.blkPtr && curMetaBlock.Length == usedMetaInBlk.Length
    }

    /** Between calls capture id `k` holds nothing, or a block with at least one meta handed out. */
    ghost predicate Holding(c: S.Ring, k: nat)
      requires k < |c.prods| && k < curMetaBlock.Length && k < usedMetaInBlk.Length
      reads this, curMetaBlock, usedMetaInBlk, shared.slots
    {
      match curMetaBlock[k]
      case None => c.prods[k].pc == Idle
      case Some(t) =>
        t < shared.slots.Length && usedMetaInBlk[k] > 0 &&
        c.prods[k].pc == Filling(t, usedMetaInBlk[k], shared.slots[t].dataBlk, false)
    }

    ghost predicate Shows(c: S.Ring, k: nat)
      reads this, curMetaBlock, usedMetaInBlk, shared, shared.slots, shared.pool, shared.blkPtr
    {
      && Valid() && shared.Shows(c) && k < |c.prods| && k < curMetaBlock.Length && Holding(c, k)
    }

    constructor (shared: SharedRing, captures: nat)
      ensures this.shared == shared && curMetaBlock.Length == usedMetaInBlk.Length == captures
      ensures fresh(curMetaBlock) && fresh(usedMetaInBlk)
      ensures forall k :: 0 <= k < captures ==> curMetaBlock[k] == None && usedMetaInBlk[k] == 0
    {
      this.shared := shared;
      curMetaBlock := new Option<nat>[captures](_ => None);
      usedMetaInBlk := new nat[captures](_ => 0);
    }

    /** `DoneMetaBlk`: publishes the held block, if any meta of it was handed out. */
    method DoneMetaBlk(k: nat)
      requires k < curMetaBlock.Length == usedMetaInBlk.Length
      requires curMetaBlock[k].Some? ==> curMetaBlock[k].value < shared.slots.Length
      modifies shared.slots, curMetaBlock
      ensures var blk := old(curMetaBlock[k]);
        if blk == None || usedMetaInBlk[k] == 0 then
          shared.slots[..] == old(shared.slots[..]) && curMetaBlock[..] == old(curMetaBlock[..])
        else
          && shared.slots[..] ==
               old(shared.slots[..])[blk.value := old(shared.slots[blk.value]).(size := usedMetaInBlk[k])]
          && curMetaBlock[..] == old(curMetaBlock[..])[k := None]
    {
      if curMetaBlock[k] == None || usedMetaInBlk[k] == 0 {
        return;
      }
      var t := curMetaBlock[k].value;
      shared.slots[t] := shared.slots[t].(size := usedMetaInBlk[k]);
      curMetaBlock[k] := None;
    }

    /** `FinalMetaBlk`: marks the held block as the last of its data block and publishes it. */
    method FinalMetaBlk(k: nat, ghost c: S.Ring) returns (ghost acts: seq<Action>)
      requires Shows(c, k)
      modifies shared.slots, curMetaBlock
      ensures S.Legal(shared.cfg, c, acts) && Shows(S.Exec(shared.cfg, c, acts), k)
      ensures acts == if old(curMetaBlock[k]) == None then [] else FinalSteps(k)
      ensures curMetaBlock[..] == old(curMetaBlock[..])[k := None]
      ensures var blk := old(curMetaBlock[k]);
        if blk == None then shared.slots[..] == old(shared.slots[..])
        else
          shared.slots[..] == old(shared.slots[..])[blk.value :=
            old(shared.slots[blk.value]).(isFinal := true, size := usedMetaInBlk[k])]
    {
      acts := [];
      if curMetaBlock[k] == None {
        return;
      }
      ghost var cc: S.Ring;
      var t := curMetaBlock[k].value;
      acts, cc := Extend(shared.cfg, c, acts, SetFinal(k));
      shared.slots[t] := shared.slots[t].(isFinal := true);
      acts, cc := Extend(shared.cfg, c, acts, PublishFinal(k));
      DoneMetaBlk(k);
      assert cc.slots == shared.slots[..];
    }

    /** A block is full when its next meta would lie outside its own range, or would be the last of the pool. */
    method IsMetaBlkFull(k: nat) returns (full: bool)
      requires k < curMetaBlock.Length == usedMetaInBlk.Length
      requires curMetaBlock[k].Some? && curMetaBlock[k].value < shared.slots.Length
      ensures full <==> usedMetaInBlk[k] >= shared.cfg.capacity
                        || shared.slots[curMetaBlock[k].value].offset + usedMetaInBlk[k] >= shared.cfg.metaTotal - 1
    {
      full := usedMetaInBlk[k] >= Capacity(shared.cfg, shared.slots[curMetaBlock[k].value].offset);
    }

    /** The next call of `GetMeta4PktBlk` takes a new block. */
    ghost predicate NeedsBlock(k: nat)
      requires k < curMetaBlock.Length && k < usedMetaInBlk.Length
      requires curMetaBlock[k].Some? ==> curMetaBlock[k].value < shared.slots.Length
      reads this, curMetaBlock, usedMetaInBlk, shared.slots
    {
      curMetaBlock[k].None? || usedMetaInBlk[k] >= Capacity(shared.cfg, shared.slots[curMetaBlock[k].value].offset)
    }

    /** The meta blocks after one of them, if any, was given its size. */
    static function WithSize(slots: seq<Slot>, blk: Option<nat>, size: nat): seq<Slot>
      requires blk.Some? ==> blk.value < |slots|
    {
      if blk.None? then slots else slots[blk.value := slots[blk.value].(size := size)]
    }

    /** The meta blocks after the one at `t` was claimed for a data block. */
    static function WithFresh(slots: seq<Slot>, t: nat, capacity: nat, dataBlk: nat): seq<Slot>
      requires t < |slots|
    {
      slots[t := slots[t].(blkPos := t, offset := t * capacity, dataBlk := dataBlk)]
    }

    /** Publishes the held block if it is full, as the first half of `GetMeta4PktBlk` does. */
    method DoneIfFull(k: nat, ghost c: S.Ring) returns (ghost acts: seq<Action>)
      requires Shows(c, k)
      requires curMetaBlock[k].Some? ==>
        usedMetaInBlk[k] >= Capacity(shared.cfg, shared.slots[curMetaBlock[k].value].offset)
      modifies shared.slots, curMetaBlock
      ensures S.Legal(shared.cfg, c, acts) && Shows(S.Exec(shared.cfg, c, acts), k)
      ensures acts == if old(curMetaBlock[k]) == None then [] else [PublishFull(k)]
      ensures curMetaBlock[..] == old(curMetaBlock[..])[k := None]
      ensures shared.slots[..] == WithSize(old(shared.slots[..]), old(curMetaBlock[k]), usedMetaInBlk[k])
    {
      acts := [];
      ghost var cc := c;
      if curMetaBlock[k].Some? {
        acts, cc := Extend(shared.cfg, c, acts, PublishFull(k));
      }
      DoneMetaBlk(k);
      assert cc.slots == shared.slots[..];
    }

    /** `GetMeta4PktBlk`: hands out the next meta for `dataBlk`, in the held block or, if there is none or
        it is full, in a new one. Its wait for an empty block is the caller's: one is there if it is needed. */
    method GetMeta4PktBlk(k: nat, dataBlk: nat, ghost c: S.Ring) returns (index: nat, ghost acts: seq<Action>)
      requires Shows(c, k)
      requires NeedsBlock(k) ==>
        (shared.tailMetaBlk + 2) % shared.cfg.blkCount != shared.blkPtr[0] && shared.slots[shared.tailMetaBlk].size == 0
      requires NeedsBlock(k) && curMetaBlock[k].Some? ==> curMetaBlock[k].value != shared.tailMetaBlk
      requires !NeedsBlock(k) ==> shared.slots[curMetaBlock[k].value].dataBlk == dataBlk
      modifies shared`tailMetaBlk, shared.slots, curMetaBlock, usedMetaInBlk
      ensures S.Legal(shared.cfg, c, acts) && Shows(S.Exec(shared.cfg, c, acts), k)
      ensures acts == MetaSteps(k, dataBlk, old(curMetaBlock[k]).Some?, old(NeedsBlock(k)))
      ensures curMetaBlock[k].Some? && shared.slots[curMetaBlock[k].value].dataBlk == dataBlk
      ensures index == shared.slots[curMetaBlock[k].value].offset + usedMetaInBlk[k] - 1
      ensures old(!NeedsBlock(k)) ==>
        && shared.tailMetaBlk == old(shared.tailMetaBlk) && shared.slots[..] == old(shared.slots[..])
        && curMetaBlock[..] == old(curMetaBlock[..])
        && usedMetaInBlk[..] == old(usedMetaInBlk[..])[k := old(usedMetaInBlk[k]) + 1]
      ensures old(NeedsBlock(k)) ==> var t := old(shared.tailMetaBlk);
        && shared.tailMetaBlk == (t + 1) % shared.cfg.blkCount
        && shared.slots[..] ==
             WithFresh(WithSize(old(shared.slots[..]), old(curMetaBlock[k]), old(usedMetaInBlk[k])), t,
                       shared.cfg.capacity, dataBlk)
        && curMetaBlock[..] == old(curMetaBlock[..])[k := Some(t)]
        && usedMetaInBlk[..] == old(usedMetaInBlk[..])[k := 1]
    {
      ghost var cc: S.Ring;
      acts, cc := MakeRoom(k, dataBlk, c);
      index, acts := TakeMeta(k, dataBlk, c, acts, cc);
    }

    /** The first half: afterwards the held block has room for a meta. */
    method MakeRoom(k: nat, dataBlk: nat, ghost c: S.Ring) returns (ghost acts: seq<Action>, ghost cc: S.Ring)
      requires Shows(c, k)
      requires NeedsBlock(k) ==>
        (shared.tailMetaBlk + 2) % shared.cfg.blkCount != shared.blkPtr[0] && shared.slots[shared.tailMetaBlk].size == 0
      requires NeedsBlock(k) && curMetaBlock[k].Some? ==> curMetaBlock[k].value != shared.tailMetaBlk
      requires !NeedsBlock(k) ==> shared.slots[curMetaBlock[k].value].dataBlk == dataBlk
      modifies shared`tailMetaBlk, shared.slots, curMetaBlock, usedMetaInBlk
      ensures acts == RoomSteps(k, dataBlk, old(curMetaBlock[k]).Some?, old(NeedsBlock(k)))
      ensures S.Legal(shared.cfg, c, acts) && cc == S.Exec(shared.cfg, c, acts)
      ensures Valid() && shared.Shows(cc) && k < |cc.prods| && curMetaBlock[k].Some?
      ensures curMetaBlock[k].value < shared.slots.Length && !NeedsRoom(k)
      ensures cc.prods[k].pc == Filling(curMetaBlock[k].value, usedMetaInBlk[k], dataBlk, false)
      ensures shared.slots[curMetaBlock[k].value].dataBlk == dataBlk
      ensures old(!NeedsBlock(k)) ==>
        && shared.tailMetaBlk == old(shared.tailMetaBlk) && shared.slots[..] == old(shared.slots[..])
        && curMetaBlock[..] == old(curMetaBlock[..]) && usedMetaInBlk[..] == old(usedMetaInBlk[..])
      ensures old(NeedsBlock(k)) ==> Renewed(k, dataBlk)
    {
      acts, cc := [], c;
      var full := true;
      if curMetaBlock[k].Some? {
        full := IsMetaBlkFull(k);
      }
      if full {
        acts, cc := RenewBlock(k, dataBlk, c);
      }
    }

    /** Since the call began the held block, if any, was given its size, and the block at the tail was claimed for
        `dataBlk` and taken in its place. */
    twostate predicate Renewed(k: nat, dataBlk: nat)
      requires old(Valid()) && k < curMetaBlock.Length == usedMetaInBlk.Length
      requires old(curMetaBlock[k]).Some? ==> old(curMetaBlock[k]).value < shared.slots.Length
      requires shared.cfg.blkCount > 0
      reads this, shared, shared.slots, curMetaBlock, usedMetaInBlk
    {
      && shared.tailMetaBlk == (old(shared.tailMetaBlk) + 1) % shared.cfg.blkCount
      && shared.slots[..] ==
           WithFresh(WithSize(old(shared.slots[..]), old(curMetaBlock[k]), old(usedMetaInBlk[k])),
                     old(shared.tailMetaBlk), shared.cfg.capacity, dataBlk)
      && curMetaBlock[..] == old(curMetaBlock[..])[k := Some(old(shared.tailMetaBlk))]
      && usedMetaInBlk[..] == old(usedMetaInBlk[..])[k := 0]
    }

    /** Gives the held block back, if there is one, and takes a new one. */
    method RenewBlock(k: nat, dataBlk: nat, ghost c: S.Ring) returns (ghost acts: seq<Action>, ghost cc: S.Ring)
      requires Shows(c, k) && NeedsBlock(k)
      requires (shared.tailMetaBlk + 2) % shared.cfg.blkCount != shared.blkPtr[0]
      requires shared.slots[shared.tailMetaBlk].size == 0
      requires curMetaBlock[k].Some? ==> curMetaBlock[k].value != shared.tailMetaBlk
      modifies shared`tailMetaBlk, shared.slots, curMetaBlock, usedMetaInBlk
      ensures acts == (if old(curMetaBlock[k]).Some? then [PublishFull(k)] else []) + FreshSteps(k, dataBlk)
      ensures Renewed(k, dataBlk)
      ensures S.Legal(shared.cfg, c, acts) && cc == S.Exec(shared.cfg, c, acts)
      ensures Valid() && shared.Shows(cc) && k < |cc.prods|
      ensures cc.prods[k].pc == Filling(old(shared.tailMetaBlk), 0, dataBlk, false)
    {
      acts := DoneIfFull(k, c);
      cc := S.Exec(shared.cfg, c, acts);
      acts, cc := FreshBlock(k, dataBlk, c, acts, cc);
      assert curMetaBlock[k] == Some(old(shared.tailMetaBlk));
    }

    /** Takes the next meta of the held block. */
    method TakeMeta(k: nat, dataBlk: nat, ghost c: S.Ring, ghost acts: seq<Action>, ghost cc: S.Ring)
      returns (index: nat, ghost acts': seq<Action>)
      requires S.Shape(shared.cfg, c) && S.Legal(shared.cfg, c, acts) && cc == S.Exec(shared.cfg, c, acts)
      requires Valid() && shared.Shows(cc) && k < |cc.prods| && k < curMetaBlock.Length && curMetaBlock[k].Some?
      requires curMetaBlock[k].value < shared.slots.Length && !NeedsRoom(k)
      requires cc.prods[k].pc == Filling(curMetaBlock[k].value, usedMetaInBlk[k], dataBlk, false)
      requires shared.slots[curMetaBlock[k].value].dataBlk == dataBlk
      modifies usedMetaInBlk
      ensures acts' == acts + [Action.TakeMeta(k, dataBlk)]
      ensures usedMetaInBlk[..] == old(usedMetaInBlk[..])[k := old(usedMetaInBlk[k]) + 1]
      ensures S.Legal(shared.cfg, c, acts') && Shows(S.Exec(shared.cfg, c, acts'), k)
      ensures index == shared.slots[curMetaBlock[k].value].offset + usedMetaInBlk[k] - 1
    {
      var t := curMetaBlock[k].value;
      index := shared.slots[t].offset + usedMetaInBlk[k];
      ghost var cc': S.Ring;
      acts', cc' := Extend(shared.cfg, c, acts, Action.TakeMeta(k, dataBlk));
      usedMetaInBlk[k] := usedMetaInBlk[k] + 1;
    }

    /** Some meta of the held block was taken, and there is no room for another. */
    ghost predicate NeedsRoom(k: nat)
      requires k < curMetaBlock.Length && k < usedMetaInBlk.Length
      requires curMetaBlock[k].Some? && curMetaBlock[k].value < shared.slots.Length
      reads this, curMetaBlock, usedMetaInBlk, shared.slots
    {
      usedMetaInBlk[k] > 0 && usedMetaInBlk[k] >= Capacity(shared.cfg, shared.slots[curMetaBlock[k].value].offset)
    }

    /** Claims a block for capture id `k` and attaches the data block to it. */
    method FreshBlock(k: nat, dataBlk: nat, ghost c: S.Ring, ghost acts: seq<Action>, ghost before: S.Ring)
      returns (ghost acts': seq<Action>, ghost cc: S.Ring)
      requires S.Shape(shared.cfg, c) && S.Legal(shared.cfg, c, acts) && before == S.Exec(shared.cfg, c, acts)
      requires Shows(before, k) && curMetaBlock[k] == None
      requires (shared.tailMetaBlk + 2) % shared.cfg.blkCount != shared.blkPtr[0]
      requires shared.slots[shared.tailMetaBlk].size == 0
      modifies shared`tailMetaBlk, shared.slots, curMetaBlock, usedMetaInBlk
      ensures S.Legal(shared.cfg, c, acts') && cc == S.Exec(shared.cfg, c, acts')
      ensures Valid() && shared.Shows(cc) && k < |cc.prods|
      ensures acts' == acts + FreshSteps(k, dataBlk)
      ensures curMetaBlock[..] == old(curMetaBlock[..])[k := Some(old(shared.tailMetaBlk))]
      ensures usedMetaInBlk[..] == old(usedMetaInBlk[..])[k := 0]
      ensures shared.tailMetaBlk == (old(shared.tailMetaBlk) + 1) % shared.cfg.blkCount
      ensures shared.slots[..] ==
        WithFresh(old(shared.slots[..]), old(shared.tailMetaBlk), shared.cfg.capacity, dataBlk)
      ensures curMetaBlock[k].Some? && usedMetaInBlk[k] == 0 && curMetaBlock[k].value < shared.slots.Length
      ensures cc.prods[k].pc == Filling(curMetaBlock[k].value, 0, dataBlk, false)
      ensures shared.slots[curMetaBlock[k].value].dataBlk == dataBlk
    {
      ghost var more: seq<Action>;
      var blk: Option<nat>;
      blk, more := shared.GetEmptyMetaBlk(k, before);
      ghost var mid := S.Exec(shared.cfg, before, more);
      acts', cc := FreshRun(shared.cfg, c, acts, before, more, mid, k, blk.value, dataBlk);
      AttachBlock(k, blk.value, dataBlk, mid, cc);
    }

    /** Capture id `k` takes the block at `t`, which was claimed, for the data block. */
    method AttachBlock(k: nat, t: nat, dataBlk: nat, ghost mid: S.Ring, ghost cc: S.Ring)
      requires Valid() && shared.Shows(mid) && k < |mid.prods| && k < curMetaBlock.Length && t < shared.slots.Length
      requires cc == mid.(slots := mid.slots[t := mid.slots[t].(dataBlk := dataBlk)],
                          prods := mid.prods[k := mid.prods[k].(pc := Filling(t, 0, dataBlk, false))])
      modifies shared.slots, curMetaBlock, usedMetaInBlk
      ensures Valid() && shared.Shows(cc)
      ensures curMetaBlock[..] == old(curMetaBlock[..])[k := Some(t)]
      ensures usedMetaInBlk[..] == old(usedMetaInBlk[..])[k := 0]
      ensures shared.slots[..] == old(shared.slots[..])[t := old(shared.slots[t]).(dataBlk := dataBlk)]
    {
      curMetaBlock[k] := Some(t);
      usedMetaInBlk[k] := 0;
      shared.slots[t] := shared.slots[t].(dataBlk := dataBlk);
      assert shared.slots[..] == cc.slots;
    }

    /** `SendStopSignal` (for `ts` 0) and `SendTimeoutSignal`, once an empty block is there. `p` is a
        producer of its own. */
    method SendSignal(ts: nat, ghost p: nat, ghost c: S.Ring) returns (t: nat, ghost acts: seq<Action>)
      requires Valid() && Sized(shared.cfg) && shared.Shows(c) && p < |c.prods| && c.prods[p].pc == Idle
      requires (shared.tailMetaBlk + 2) % shared.cfg.blkCount != shared.blkPtr[0]
      requires shared.slots[shared.tailMetaBlk].size == 0 && shared.slots[shared.tailMetaBlk].dataBlk == 0
      modifies shared`tailMetaBlk, shared.slots, shared.pool
      ensures S.Legal(shared.cfg, c, acts) && shared.Shows(S.Exec(shared.cfg, c, acts))
      ensures acts == ClaimSteps(p) + [WriteBlkPos(p), WriteOffset(p)] + SignalSteps(p, ts)
      ensures t == old(shared.tailMetaBlk)
      ensures S.IsStopSignal(shared.cfg, S.Exec(shared.cfg, c, acts), t) <==> ts == 0
      ensures S.IsTimeoutSignal(shared.cfg, S.Exec(shared.cfg, c, acts), t) <==> ts != 0
      ensures forall s :: 0 <= s < shared.slots.Length && s != t ==> shared.slots[s] == old(shared.slots[s])
    {
      var blk: Option<nat>;
      blk, acts := shared.GetEmptyMetaBlk(p, c);
      t := blk.value;
      ghost var before := S.Exec(shared.cfg, c, acts);
      FillSignal(t, ts, p, before);
      LegalConcat(shared.cfg, c, acts, SignalSteps(p, ts));
      acts := acts + SignalSteps(p, ts);
    }

    /** The stores of a signal, into an empty block. */
    method FillSignal(t: nat, ts: nat, ghost p: nat, ghost c: S.Ring)
      requires shared.Shows(c) && Sized(shared.cfg) && p < |c.prods| && c.prods[p].pc == Fresh(t)
      requires t < shared.slots.Length && shared.slots[t].dataBlk == 0
      requires shared.slots[t].offset == t * shared.cfg.capacity
      modifies shared.slots, shared.pool
      ensures S.Legal(shared.cfg, c, SignalSteps(p, ts)) && shared.Shows(S.Exec(shared.cfg, c, SignalSteps(p, ts)))
      ensures S.IsStopSignal(shared.cfg, S.Exec(shared.cfg, c, SignalSteps(p, ts)), t) <==> ts == 0
      ensures S.IsTimeoutSignal(shared.cfg, S.Exec(shared.cfg, c, SignalSteps(p, ts)), t) <==> ts != 0
      ensures forall s :: 0 <= s < shared.slots.Length && s != t ==> shared.slots[s] == old(shared.slots[s])
    {
      OffsetBound(shared.cfg, t);
      var k := shared.slots[t].offset;
      SignalRun(shared.cfg, c, p, t, ts, k);
      shared.pool[k] := shared.pool[k].(ts := ts, pktLen := 0);
      shared.slots[t] := shared.slots[t].(isFinal := true);
      shared.slots[t] := shared.slots[t].(size := 1);
      ghost var cc := S.Exec(shared.cfg, c, SignalSteps(p, ts));
      assert cc.slots == shared.slots[..];
      assert cc.pool == shared.pool[..];
    }
  }
}
