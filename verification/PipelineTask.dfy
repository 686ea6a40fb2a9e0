/** The consumer of the ring in pipeline_task.cpp: `CCollectPacketTask` turns ready blocks into tokens, and
    `CReturnPacketTask` moves the module on, one block per token. */
module PipelineTask {
  import opened RingTypes
  import opened RingGeometry
  import opened Modular
  import opened RingRefinement
  import opened RingTheorems
  import opened RingRuns
  import S = RingSteps
  import L = RingLog
  import opened RingWords
  import opened RingClasses
  import D = Decode
  import DL = DecodeLaws

  /** `BlockToken`: the block, and the index of the meta of each of its packets. */
  datatype BlockToken = BlockToken(blk: nat, packets: seq<nat>)

  /** What the collect task takes for the stop signal. */
  predicate TakenForStop(blk: Slot, first: Meta) {
    blk.size == 1 && first.pktLen == 0 && first.ts == 0
  }

  /** The packets of a block. */
  function PacketsOf(blk: Slot): (packets: seq<nat>)
    ensures |packets| == blk.size
  {
    seq(blk.size, i => blk.offset + i)
  }

  /** All metas of a block that was handed over lie in the pool. */
  lemma HandedInPool(cfg: Config, c: S.Ring, id: nat, j: nat, i: nat)
    requires Usable(cfg) && Reachable(cfg, c) && id < cfg.modCount
    requires j < |c.mods[id].handed| && i < c.mods[id].handed[j].size
    ensures c.mods[id].handed[j].offset + i < cfg.metaTotal
  {
    var a := LogOf(cfg, c);
    assert ModOk(cfg, c, a, id) && L.CursorOk(cfg, a, id) && L.EntryOk(cfg, a, j);
    MetaInPool(cfg, Wrap(j, cfg.blkCount), i);
  }

  /** The block handed over last is in its place, and its metas are in the pool. */
  lemma HandedFacts(cfg: Config, c: S.Ring, id: nat, j: nat, blk: Slot)
    requires Usable(cfg) && Reachable(cfg, c) && id < cfg.modCount
    requires j < |c.mods[id].handed| && c.mods[id].handed[j] == blk
    ensures Collectible(cfg, j, blk)
  {
    InOrder(cfg, c, id, j);
    WrapIsMod(j, cfg.blkCount);
    forall i | 0 <= i < |PacketsOf(blk)| ensures PacketsOf(blk)[i] < cfg.metaTotal {
      HandedInPool(cfg, c, id, j, i);
    }
  }

  /** The run of a call keeps the state reachable: a module's steps claim nothing. */
  lemma StillReachable(cfg: Config, c: S.Ring, acts: seq<Action>)
    requires S.Shape(cfg, c) && Reachable(cfg, c) && S.Legal(cfg, c, acts)
    requires forall i :: 0 <= i < |acts| ==> !acts[i].Cas?
    ensures Reachable(cfg, S.Exec(cfg, c, acts))
  {
    NoClaimSafe(cfg, c, acts);
    SafeRunReaches(cfg, c, acts);
  }

  // ------------------------------------------------------------- decoding

  /** How the fields that decoding works on lie in a meta: `unpack` reads them, `pack` gives the body that holds
      them. */
  datatype Layout = Layout(unpack: Meta -> D.MetaInfo, pack: D.MetaInfo -> nat)

  /** The data of a packet can be decoded. */
  ghost predicate Decodable(data: Option<D.Memory>) {
    data.Some? ==> D.WalkEnds(data.value)
  }

  /** The body of a meta after `ProcessPacketBasic`. */
  ghost function DecodedBody(layout: Layout, data: Option<D.Memory>, m: Meta): nat
    requires Decodable(data)
  {
    match data
    case None => layout.pack(layout.unpack(m))
    case Some(mem) => layout.pack(D.Decoded(mem, layout.unpack(m)).meta)
  }

  /** The layout keeps the fields apart: a body that holds fields of the length that the meta has gives them back. */
  ghost predicate Faithful(layout: Layout) {
    forall m: Meta, r: D.MetaInfo :: r.attr.pktLen == layout.unpack(m).attr.pktLen ==>
      layout.unpack(m.(body := layout.pack(r))) == r
  }

  /** Then the meta holds what decoding found, although only its body was written: decoding leaves the length. */
  lemma DecodedInPlace(layout: Layout, mem: D.Memory, m: Meta)
    requires Faithful(layout) && D.WalkEnds(mem)
    ensures layout.unpack(m.(body := DecodedBody(layout, Some(mem), m))) == D.Decoded(mem, layout.unpack(m)).meta
  {
    DL.LengthKept(mem, layout.unpack(m));
  }

  method DecodeOne(layout: Layout, data: Option<D.Memory>, m: Meta) returns (body: nat)
    requires Decodable(data)
    ensures body == DecodedBody(layout, data, m)
  {
    var metaInfo := new D.PacketMeta(layout.unpack(m));
    var code := D.ProcessPacketBasic(data, metaInfo);
    body := layout.pack(metaInfo.Value());
  }

  /** The bodies after decoding the packets whose metas lie from `base` on. */
  ghost function DecodedBodies(layout: Layout, data: seq<Option<D.Memory>>, pool: seq<Meta>, base: nat): seq<nat>
    requires base + |data| <= |pool| && forall i :: 0 <= i < |data| ==> Decodable(data[i])
  {
    seq(|data|, i requires 0 <= i < |data| => DecodedBody(layout, data[i], pool[base + i]))
  }

  /** `CBasicProcessTask`: decodes every packet of a token into its meta. */
  method BasicProcess(ring: SharedRing, token: BlockToken, data: seq<Option<D.Memory>>, layout: Layout,
                      ghost id: nat, ghost j: nat, ghost c: S.Ring)
    returns (ghost acts: seq<Action>)
    requires ring.Shows(c) && Usable(ring.cfg) && Reachable(ring.cfg, c) && id < ring.cfg.modCount && S.Has(c, id, j)
    requires id == 0 ==> j in c.frees && c.frees[j].done == 0
    requires token == BlockToken(j % ring.cfg.blkCount, PacketsOf(c.mods[id].handed[j]))
    requires |data| == |token.packets| && forall i :: 0 <= i < |data| ==> Decodable(data[i])
    modifies ring.pool
    ensures S.Legal(ring.cfg, c, acts) && Reachable(ring.cfg, S.Exec(ring.cfg, c, acts))
    ensures ring.Shows(S.Exec(ring.cfg, c, acts)) && S.Exec(ring.cfg, c, acts) == c.(pool := ring.pool[..])
    ensures c.mods[id].handed[j].offset + |data| <= ring.pool.Length
    ensures var base := c.mods[id].handed[j].offset;
      ring.pool[..] == WithBodies(old(ring.pool[..]), base, DecodedBodies(layout, data, old(ring.pool[..]), base))
  {
    ghost var blk := c.mods[id].handed[j];
    HandedFacts(ring.cfg, c, id, j, blk);
    assert PacketsOf(blk)[|data| - 1] < ring.cfg.metaTotal;
    StableUntilMoved(ring.cfg, c, id, j);
    acts := WriteBodies(ring, ring.slots[token.blk].size, token.packets, data, layout, id, j, c);
    StillReachable(ring.cfg, c, acts);
  }

  /** The pool with the bodies of the metas from `base` on replaced. */
  function WithBodies(pool: seq<Meta>, base: nat, bodies: seq<nat>): seq<Meta> {
    seq(|pool|, k requires 0 <= k < |pool| =>
      if base <= k < base + |bodies| then pool[k].(body := bodies[k - base]) else pool[k])
  }

  method WriteBodies(ring: SharedRing, size: nat, packets: seq<nat>, data: seq<Option<D.Memory>>, layout: Layout,
                     ghost id: nat, ghost j: nat, ghost c: S.Ring)
    returns (ghost acts: seq<Action>)
    requires ring.Shows(c) && id < ring.cfg.modCount && S.Has(c, id, j)
    requires packets == PacketsOf(c.mods[id].handed[j]) && |data| == |packets| == size
    requires c.mods[id].handed[j].offset + size <= ring.pool.Length
    requires forall i :: 0 <= i < |data| ==> Decodable(data[i])
    modifies ring.pool
    ensures S.Legal(ring.cfg, c, acts) && S.Exec(ring.cfg, c, acts) == c.(pool := ring.pool[..])
    ensures forall n :: 0 <= n < |acts| ==> acts[n].WriteMeta?
    ensures var base := c.mods[id].handed[j].offset;
      ring.pool[..] == WithBodies(old(ring.pool[..]), base, DecodedBodies(layout, data, old(ring.pool[..]), base))
  {
    ghost var cfg, cc, base := ring.cfg, c, c.mods[id].handed[j].offset;
    ghost var bodies := DecodedBodies(layout, data, ring.pool[..], base);
    acts := [];
    assert ring.pool[..] == WithBodies(ring.pool[..], base, bodies[..0]);
    for i := 0 to size
      invariant S.Legal(cfg, c, acts) && cc == S.Exec(cfg, c, acts) && cc == c.(pool := ring.pool[..])
      invariant Writes(acts)
      invariant ring.pool[..] == WithBodies(old(ring.pool[..]), base, bodies[..i])
    {
      NotYet(old(ring.pool[..]), base, bodies, i);
      acts, cc := DecodeInto(ring, packets[i], data[i], layout, id, j, i, c, acts, cc);
      NextBody(old(ring.pool[..]), base, bodies, i, ring.pool[..]);
    }
    assert bodies[..size] == bodies;
  }

  /** A run of writes to metas. */
  ghost predicate Writes(acts: seq<Action>) {
    forall n :: 0 <= n < |acts| ==> acts[n].WriteMeta?
  }

  /** Decodes one packet into its meta, the one at `k`. */
  method DecodeInto(ring: SharedRing, k: nat, data: Option<D.Memory>, layout: Layout, ghost id: nat, ghost j: nat,
                    ghost i: nat, ghost c: S.Ring, ghost acts: seq<Action>, ghost cc: S.Ring)
    returns (ghost acts': seq<Action>, ghost cc': S.Ring)
    requires S.Shape(ring.cfg, c) && S.Legal(ring.cfg, c, acts) && cc == S.Exec(ring.cfg, c, acts)
    requires cc == c.(pool := ring.pool[..]) && id < |c.mods| && S.Has(c, id, j) && i < c.mods[id].handed[j].size
    requires k == c.mods[id].handed[j].offset + i < ring.pool.Length && Decodable(data)
    modifies ring.pool
    ensures Writes(acts) ==> Writes(acts')
    ensures S.Legal(ring.cfg, c, acts') && cc' == S.Exec(ring.cfg, c, acts') && cc' == c.(pool := ring.pool[..])
    ensures var m := old(ring.pool[k]);
      ring.pool[..] == old(ring.pool[..])[k := m.(body := DecodedBody(layout, data, m))]
  {
    var body := DecodeOne(layout, data, ring.pool[k]);
    acts', cc' := WriteOne(ring, k, body, c, acts, cc, WriteMeta(id, j, i, body));
  }

  /** One store to a body. */
  method WriteOne(ring: SharedRing, k: nat, body: nat, ghost c: S.Ring, ghost acts: seq<Action>, ghost cc: S.Ring,
                  ghost act: Action)
    returns (ghost acts': seq<Action>, ghost cc': S.Ring)
    requires S.Shape(ring.cfg, c) && S.Legal(ring.cfg, c, acts) && cc == S.Exec(ring.cfg, c, acts)
    requires cc.pool == ring.pool[..] && act.WriteMeta? && act.body == body && S.Enabled(ring.cfg, cc, act)
    requires k == cc.mods[act.id].handed[act.j].offset + act.idx < ring.pool.Length
    modifies ring.pool
    ensures acts' == acts + [act] && S.Legal(ring.cfg, c, acts') && cc' == S.Exec(ring.cfg, c, acts')
    ensures cc' == cc.(pool := ring.pool[..])
    ensures ring.pool[..] == old(ring.pool[..])[k := old(ring.pool[k]).(body := body)]
  {
    acts', cc' := WriteStep(ring.cfg, c, acts, cc, act, k);
    ring.pool[k] := ring.pool[k].(body := body);
  }

  lemma WriteStep(cfg: Config, c: S.Ring, acts: seq<Action>, cc: S.Ring, act: Action, k: nat)
    returns (acts': seq<Action>, cc': S.Ring)
    requires S.Shape(cfg, c) && S.Legal(cfg, c, acts) && cc == S.Exec(cfg, c, acts) && act.WriteMeta?
    requires S.Enabled(cfg, cc, act) && k == cc.mods[act.id].handed[act.j].offset + act.idx < |cc.pool|
    ensures acts' == acts + [act] && S.Legal(cfg, c, acts') && cc' == S.Exec(cfg, c, acts')
    ensures cc' == cc.(pool := cc.pool[k := cc.pool[k].(body := act.body)])
  {
    WriteEffect(cfg, cc, act, k);
    acts', cc' := Extend(cfg, c, acts, act);
  }

  /** The meta that is written next is as it was at first. */
  lemma NotYet(pool: seq<Meta>, base: nat, bodies: seq<nat>, i: nat)
    requires i < |bodies| && base + i < |pool|
    ensures WithBodies(pool, base, bodies[..i])[base + i] == pool[base + i]
  {
  }

  lemma NextBody(pool: seq<Meta>, base: nat, bodies: seq<nat>, i: nat, pool': seq<Meta>)
    requires i < |bodies| && base + i < |pool|
    requires var before := WithBodies(pool, base, bodies[..i]);
      pool' == before[base + i := before[base + i].(body := bodies[i])]
    ensures pool' == WithBodies(pool, base, bodies[..i + 1])
  {
  }

  /** The assertion on positions when the module has been handed `count` blocks, `base` of them before the task
      was started. */
  predicate PositionHolds(base: nat, count: nat, n: nat)
    requires n > 0 && base <= count
  {
    Wrap(Wrap(count - base, WORD), n) == Wrap(count, n)
  }

  /** Block `j` is in its place, not empty, and its metas are in the pool. */
  ghost predicate Collectible(cfg: Config, j: nat, blk: Slot)
    requires cfg.blkCount > 0
  {
    && blk.blkPos == Wrap(j, cfg.blkCount) && blk.size >= 1
    && forall i :: 0 <= i < |PacketsOf(blk)| ==> PacketsOf(blk)[i] < cfg.metaTotal
  }

  /** Whatever its own steps hand to module `id` next is a block in its place, with its metas in the pool. */
  ghost predicate Delivers(cfg: Config, c: S.Ring, id: nat)
    requires S.Shape(cfg, c) && id < cfg.modCount
  {
    forall acts :: S.Legal(cfg, c, acts) && OwnSteps(acts, id) ==>
      var h := S.Exec(cfg, c, acts).mods[id].handed;
      h != [] ==> Collectible(cfg, |h| - 1, h[|h| - 1])
  }

  /** The steps of `GetNextFullMetaBlk`. */
  ghost predicate OwnSteps(acts: seq<Action>, id: nat) {
    forall i :: 0 <= i < |acts| ==> (acts[i].ScanLimit? || acts[i].Probe? || acts[i].HandOver?) && acts[i].id == id
  }

  /** Every reachable ring delivers, and after a module's own steps it is reachable again. */
  lemma ReachableDelivers(cfg: Config, c: S.Ring, id: nat)
    requires Usable(cfg) && S.Shape(cfg, c) && Reachable(cfg, c) && id < cfg.modCount
    ensures Delivers(cfg, c, id)
    ensures forall acts :: S.Legal(cfg, c, acts) && OwnSteps(acts, id) ==> Reachable(cfg, S.Exec(cfg, c, acts))
  {
    forall acts | S.Legal(cfg, c, acts) && OwnSteps(acts, id)
      ensures Reachable(cfg, S.Exec(cfg, c, acts))
      ensures var h := S.Exec(cfg, c, acts).mods[id].handed; h != [] ==> Collectible(cfg, |h| - 1, h[|h| - 1])
    {
      StillReachable(cfg, c, acts);
      LastHanded(cfg, S.Exec(cfg, c, acts), id);
    }
  }

  lemma LastHanded(cfg: Config, c: S.Ring, id: nat)
    requires Usable(cfg) && S.Shape(cfg, c) && Reachable(cfg, c) && id < cfg.modCount
    ensures var h := c.mods[id].handed; h != [] ==> Collectible(cfg, |h| - 1, h[|h| - 1])
  {
    var h := c.mods[id].handed;
    if h != [] {
      HandedFacts(cfg, c, id, |h| - 1, h[|h| - 1]);
    }
  }

  /** Returning a token is never refused: a token in flight is a block that is held. */
  lemma ReturnAccepted(cfg: Config, c: S.Ring, id: nat)
    requires Usable(cfg) && S.Shape(cfg, c) && Reachable(cfg, c) && id < cfg.modCount && c.mods[id].held >= 1
    ensures S.Enabled(cfg, c, Move(id, 1)) && Reachable(cfg, S.Next(cfg, c, Move(id, 1)))
    ensures S.Move2Next(cfg, c.mods[id].blkPtr, S.LimPtr(cfg, c, id), 1).Some?
    ensures cfg.blkCount <= 0x4000_0000 ==> InWords(cfg, c.mods[id].blkPtr, S.LimPtr(cfg, c, id), 1)
  {
    MoveNeverRefused(cfg, c, id, 1);
    ReachableGoesOn(cfg, c, Move(id, 1));
    Positions(cfg, c, id);
    Positions(cfg, c, S.DepModId(cfg, id));
  }

  class CollectTask {
    const packetRing: PacketRing
    var ringPos: nat
    var isSeenStop: bool
    ghost var base: nat

    /** `ringPos` counts the blocks collected since the module had been handed `base`, in 32 bits. */
    ghost predicate Shows(c: S.Ring)
      reads this, packetRing, packetRing.shared, packetRing.shared.slots, packetRing.shared.pool,
          packetRing.shared.blkPtr
    {
      && packetRing.Shows(c)
      && base <= |c.mods[packetRing.moduleId].handed| && ringPos == Wrap(|c.mods[packetRing.moduleId].handed| - base,
           WORD)
    }

    constructor (packetRing: PacketRing)
      ensures this.packetRing == packetRing && ringPos == 0 && base == 0 && !isSeenStop
    {
      this.packetRing := packetRing;
      ringPos := 0;
      base := 0;
      isSeenStop := false;
    }

    /** One pass of the loop, before the stop was seen: the steps `acts` lead to `cc`. `asserted` is what its
        assertion on positions evaluates to. */
    method Collect(ghost c: S.Ring)
      returns (token: Option<BlockToken>, asserted: bool, ghost acts: seq<Action>, ghost cc: S.Ring)
      requires Shows(c) && Delivers(packetRing.shared.cfg, c, packetRing.moduleId) && !isSeenStop
      modifies this, packetRing
      ensures S.Legal(packetRing.shared.cfg, c, acts) && cc == S.Exec(packetRing.shared.cfg, c, acts)
      ensures OwnSteps(acts, packetRing.moduleId) && Shows(cc) && base == old(base)
      ensures token.Some? <==> S.NextReady(packetRing.shared.cfg, c, packetRing.moduleId)
      ensures var h, h' := c.mods[packetRing.moduleId].handed, cc.mods[packetRing.moduleId].handed;
        match token
        case None => h' == h && asserted && isSeenStop == false
        case Some(t) =>
          && t.blk == S.NextPos(c, packetRing.moduleId) < packetRing.shared.cfg.blkCount
          && h' == h + [packetRing.shared.slots[t.blk]]
          && t.packets == PacketsOf(packetRing.shared.slots[t.blk])
          && (forall i :: 0 <= i < |t.packets| ==> t.packets[i] < packetRing.shared.cfg.metaTotal)
          && |t.packets| >= 1
          && (asserted <==> PositionHolds(base, |h|, packetRing.shared.cfg.blkCount))
          && (isSeenStop <==> TakenForStop(packetRing.shared.slots[t.blk], packetRing.shared.pool[t.packets[0]]))
    {
      var blk: Option<nat>;
      blk, acts, cc := PollRing(c);
      if blk.None? {
        return None, true, acts, cc;
      }
      var t: BlockToken;
      t, asserted := MakeToken(blk.value, |c.mods[packetRing.moduleId].handed|);
      token := Some(t);
    }

    /** What a pass does with the block it was handed, the `h`-th. */
    method MakeToken(blk: nat, ghost h: nat) returns (token: BlockToken, asserted: bool)
      requires packetRing.shared.Valid() && blk < packetRing.shared.slots.Length && !isSeenStop
      requires Collectible(packetRing.shared.cfg, h, packetRing.shared.slots[blk])
      requires base <= h && ringPos == Wrap(h - base, WORD)
      modifies this`ringPos, this`isSeenStop
      ensures token == BlockToken(blk, PacketsOf(packetRing.shared.slots[blk])) && |token.packets| >= 1
      ensures forall i :: 0 <= i < |token.packets| ==> token.packets[i] < packetRing.shared.cfg.metaTotal
      ensures asserted <==> PositionHolds(base, h, packetRing.shared.cfg.blkCount)
      ensures ringPos == Wrap(h + 1 - base, WORD)
      ensures isSeenStop <==> TakenForStop(packetRing.shared.slots[blk], packetRing.shared.pool[token.packets[0]])
    {
      var metaBlk := packetRing.shared.slots[blk];
      asserted := CheckPosition(ringPos, metaBlk.blkPos, packetRing.shared.cfg.blkCount);
      WordStep(h - base);
      ringPos := NextWord(ringPos);
      var packets := FillToken(blk);
      isSeenStop := TakenForStop(metaBlk, packetRing.shared.pool[packets[0]]);
      token := BlockToken(blk, packets);
    }

    method PollRing(ghost c: S.Ring) returns (blk: Option<nat>, ghost acts: seq<Action>, ghost cc: S.Ring)
      requires packetRing.Shows(c) && Delivers(packetRing.shared.cfg, c, packetRing.moduleId)
      modifies packetRing
      ensures S.Legal(packetRing.shared.cfg, c, acts) && cc == S.Exec(packetRing.shared.cfg, c, acts)
      ensures packetRing.Shows(cc) && OwnSteps(acts, packetRing.moduleId)
      ensures blk.Some? <==> S.NextReady(packetRing.shared.cfg, c, packetRing.moduleId)
      ensures blk.Some? ==> blk.value == S.NextPos(c, packetRing.moduleId) < packetRing.shared.cfg.blkCount
      ensures cc.mods[packetRing.moduleId].handed ==
        c.mods[packetRing.moduleId].handed + if blk.Some? then [packetRing.shared.slots[blk.value]] else []
      ensures blk.Some? ==>
        Collectible(packetRing.shared.cfg, |c.mods[packetRing.moduleId].handed|, packetRing.shared.slots[blk.value])
    {
      blk, acts := packetRing.GetNextFullMetaBlk(c);
      cc := S.Exec(packetRing.shared.cfg, c, acts);
    }

    /** The loop over the packets of a block. */
    method FillToken(blk: nat) returns (packets: seq<nat>)
      requires packetRing.shared.Valid() && blk < packetRing.shared.slots.Length
      ensures packets == PacketsOf(packetRing.shared.slots[blk])
    {
      var metaBlk := packetRing.shared.slots[blk];
      packets := [];
      for i := 0 to metaBlk.size
        invariant |packets| == i && forall k :: 0 <= k < i ==> packets[k] == metaBlk.offset + k
      {
        var packet := packetRing.GetPktMetaInBlk(blk, i);
        packets := packets + [packet.value];
      }
    }

    /** The end of the loop: the counters start again, but the module stays where it is in the ring. */
    method Restart(ghost c: S.Ring)
      requires Shows(c) && isSeenStop
      modifies this
      ensures Shows(c) && ringPos == 0 && !isSeenStop && base == |c.mods[packetRing.moduleId].handed|
    {
      ringPos := 0;
      isSeenStop := false;
      base := |c.mods[packetRing.moduleId].handed|;
    }

    /** `CReturnPacketTask` on a token of a block that is held: the module moves past it. */
    method Return(token: BlockToken, ghost c: S.Ring) returns (ret: int, ghost cc: S.Ring)
      requires Shows(c) && c.mods[packetRing.moduleId].held >= 1
      requires InWords(packetRing.shared.cfg, c.mods[packetRing.moduleId].blkPtr,
                       S.LimPtr(packetRing.shared.cfg, c, packetRing.moduleId), 1)
      modifies packetRing.shared.blkPtr
      ensures S.Enabled(packetRing.shared.cfg, c, Move(packetRing.moduleId, 1))
      ensures cc == S.Next(packetRing.shared.cfg, c, Move(packetRing.moduleId, 1)) && Shows(cc)
      ensures var pos := S.Move2Next(packetRing.shared.cfg, c.mods[packetRing.moduleId].blkPtr,
                                     S.LimPtr(packetRing.shared.cfg, c, packetRing.moduleId), 1);
        if pos.Some? then
          && ret == cc.mods[packetRing.moduleId].blkPtr
          && Moved(cc, packetRing.moduleId) == Moved(c, packetRing.moduleId) + 1
        else ret == -3 && cc == c
    {
      cc := S.Next(packetRing.shared.cfg, c, Move(packetRing.moduleId, 1));
      WordMoveAgrees(packetRing.shared.cfg, c.mods[packetRing.moduleId].blkPtr,
                     S.LimPtr(packetRing.shared.cfg, c, packetRing.moduleId), 1);
      ret := packetRing.shared.Move2NextMetaBlk(packetRing.moduleId, 1, c);
    }
  }

  /** `ringPos++` in 32 bits. */
  function NextWord(x: nat): nat {
    (x + 1) % WORD
  }

  lemma WordStep(j: nat)
    ensures NextWord(Wrap(j, WORD)) == Wrap(j + 1, WORD)
  {
    WrapIsMod(j, WORD);
    WrapIsMod(j + 1, WORD);
  }

  /** The comparison in the assertion. */
  method CheckPosition(ringPos: nat, blkPos: nat, n: nat) returns (ok: bool)
    requires n > 0
    ensures ok <==> Wrap(ringPos, n) == blkPos
  {
    WrapIsMod(ringPos, n);
    ok := ringPos % n == blkPos;
  }

  lemma PositionMod(base: nat, count: nat, n: nat)
    requires n > 0 && base <= count
    ensures PositionHolds(base, count, n) <==> (count - base) % WORD % n == count % n
  {
    WrapIsMod(count - base, WORD);
    WrapIsMod(Wrap(count - base, WORD), n);
    WrapIsMod(count, n);
  }

  /** The assertion on positions holds for every number of blocks exactly when the number of meta blocks divides
      both 2^32 and the position at which the task was started. */
  lemma PositionAssertIff(n: nat, base: nat)
    requires n > 0
    ensures (forall count: nat :: base <= count ==> PositionHolds(base, count, n)) <==> WORD % n == 0 && base % n == 0
  {
    if WORD % n == 0 && base % n == 0 {
      forall count: nat | base <= count ensures PositionHolds(base, count, n) {
        PositionMod(base, count, n);
        WholeLaps(count - base, n);
        AddLaps(base, count - base, n);
      }
    } else {
      PositionAssertFails(n, base);
    }
  }

  /** Where it fails: at the first block when the task starts again at a position other than 0, and
      otherwise when the 32-bit counter wraps. */
  lemma PositionAssertFails(n: nat, base: nat)
    requires n > 0
    ensures base % n != 0 ==> !PositionHolds(base, base, n)
    ensures base % n == 0 && WORD % n != 0 ==> !PositionHolds(base, base + WORD, n)
  {
    SmallMod(0, n);
    PositionMod(base, base, n);
    PositionMod(base, base + WORD, n);
    if base % n == 0 {
      AddLaps(base, WORD, n);
    }
  }

  /** For example, with four meta blocks and a second start after five. */
  lemma SecondStartFails()
    ensures WORD % 4 == 0 && !PositionHolds(5, 5, 4)
  {
    PositionMod(5, 5, 4);
  }

  lemma AddLaps(base: nat, j: nat, n: nat)
    requires n > 0 && base % n == 0
    ensures (base + j) % n == j % n
  {
    var q, q', r := base / n, j / n, j % n;
    assert base == q * n && j == q' * n + r;
    assert base + j == (q + q') * n + r;
    ModUnique(base + j, q + q', r, n);
  }

  lemma WholeLaps(j: nat, n: nat)
    requires n > 0 && WORD % n == 0
    ensures j % WORD % n == j % n
  {
    var q, r, k, q', r' := j / WORD, j % WORD, WORD / n, j % WORD / n, j % WORD % n;
    assert j == q * WORD + r && r == n * q' + r';
    assert q * WORD == (q * k) * n by {
      assert WORD == k * n;
    }
    assert j == (q * k + q') * n + r';
    ModUnique(j, q * k + q', r', n);
  }
}
