/** The collector's test for the stop signal, against `IsStopSignal`. */
module StopTest {
  import opened RingTypes
  import opened RingTheorems
  import opened RingRuns
  import opened RingLimits
  import opened PipelineTask
  import S = RingSteps
  import L = RingLog

  /** The collector's test agrees with `IsStopSignal` on a block it was handed exactly unless the block is one
      packet with length and time 0 that belongs to a data block or does not close one. */
  lemma StopTestIff(cfg: Config, c: S.Ring, a: L.Log, id: nat, j: nat)
    requires Usable(cfg) && Behind(cfg, c, a) && id < cfg.modCount && j < |c.mods[id].handed|
    requires if id == 0 then j in c.frees && c.frees[j].done == 0 else Moved(c, id) <= j
    requires j < |a.entries| && 0 in a.entries[j].metas
    ensures c.mods[id].handed[j].offset < |c.pool|
    ensures var e, m, blk := a.entries[j], a.entries[j].metas[0], c.mods[id].handed[j];
      (TakenForStop(blk, c.pool[blk.offset]) <==> S.IsStopSignal(cfg, c, j % cfg.blkCount))
      <==> (e.size == 1 && m.pktLen == 0 && m.ts == 0 ==> e.dataBlk == 0 && e.isFinal)
  {
    BehindLinked(cfg, c, a);
    DeliveryExact(cfg, c, a, id, j);
    MetasInHands(cfg, c, a, id, j, 0);
    SignalsRecognised(cfg, c, a, id, j);
  }

  // ------------------------------------------------------ a block too many

  /** Taking the one meta of a claimed block for data block `data`, and publishing it, as two calls of
      `GetMeta4PktBlk` do. */
  function FullSteps(p: nat, data: nat): seq<Action> {
    [Attach(p, data), TakeMeta(p, data), PublishFull(p)]
  }

  lemma TakeEffect(cfg: Config, c: S.Ring, data: nat)
    requires S.Shape(cfg, c) && |c.prods| > 0 && |c.slots| > 0 && c.prods[0].pc == Filling(0, 0, data, false)
    ensures S.Enabled(cfg, c, TakeMeta(0, data))
    ensures S.Next(cfg, c, TakeMeta(0, data)) ==
      c.(prods := c.prods[0 := c.prods[0].(pc := Filling(0, 1, data, false))])
  {
  }

  lemma FullEffect(cfg: Config, c: S.Ring, data: nat)
    requires S.Shape(cfg, c) && |c.prods| > 0 && |c.slots| > 0 && c.prods[0].pc == Filling(0, 1, data, false)
    requires Capacity(cfg, c.slots[0].offset) <= 1
    ensures S.Enabled(cfg, c, PublishFull(0))
    ensures S.Next(cfg, c, PublishFull(0)) ==
      c.(slots := c.slots[0 := c.slots[0].(size := 1)], prods := c.prods[0 := c.prods[0].(pc := Idle)])
  {
  }

  lemma FullRun(cfg: Config, c: S.Ring, data: nat) returns (c': S.Ring)
    requires Tiny(cfg) && S.Shape(cfg, c) && |c.prods| > 0 && c.prods[0].pc == Fresh(0)
    requires c.slots[0] == Slot(0, false, 0, 0, 0)
    ensures Ran(cfg, c, FullSteps(0, data), c')
    ensures c' == c.(slots := c.slots[0 := Slot(data, false, 0, 0, 1)], prods := c.prods[0 := c.prods[0].(pc := Idle)])
  {
    var acts: seq<Action>;
    AttachEffect(cfg, c, 0, 0, data);
    acts, c' := Extend(cfg, c, [], Attach(0, data));
    TakeEffect(cfg, c', data);
    acts, c' := Extend(cfg, c, acts, TakeMeta(0, data));
    FullEffect(cfg, c', data);
    acts, c' := Extend(cfg, c, acts, PublishFull(0));
    assert acts == FullSteps(0, data);
  }

  /** A safe run. */
  ghost predicate RanSafely(cfg: Config, c0: S.Ring, run: seq<Action>, c: S.Ring) {
    Ran(cfg, c0, run, c) && S.SafeRun(cfg, c0, run)
  }

  /** Going on without a claim. */
  lemma SafelyOn(cfg: Config, c0: S.Ring, run: seq<Action>, c: S.Ring, acts: seq<Action>, c': S.Ring)
    requires RanSafely(cfg, c0, run, c) && Ran(cfg, c, acts, c') && forall i :: 0 <= i < |acts| ==> !acts[i].Cas?
    ensures RanSafely(cfg, c0, run + acts, c')
  {
    GoOn(cfg, c0, run, c, acts, c');
    SafeThenQuiet(cfg, c0, run, acts, run + acts);
  }

  /** The claim of the first block of a fresh ring. */
  lemma FirstBlock(cfg: Config, c: S.Ring) returns (acts: seq<Action>, c': S.Ring)
    requires Tiny(cfg) && S.Init(cfg, c) && |c.prods| > 0
    ensures RanSafely(cfg, c, acts, c')
    ensures c' == c.(tail := 1, claims := 1, slots := c.slots[0 := Slot(0, false, 0, 0, 0)],
                     prods := c.prods[0 := S.Producer(Fresh(0), 0)])
  {
    var claim, mid := FirstClaimed(cfg, c);
    var placed: seq<Action>;
    placed, c' := PlaceRun(cfg, mid);
    SafelyOn(cfg, c, claim, mid, placed, c');
    acts := claim + placed;
  }

  lemma FirstClaimed(cfg: Config, c: S.Ring) returns (acts: seq<Action>, c': S.Ring)
    requires Tiny(cfg) && S.Init(cfg, c) && |c.prods| > 0
    ensures RanSafely(cfg, c, acts, c')
    ensures c' == c.(tail := 1, claims := 1, prods := c.prods[0 := S.Producer(Won(0), 0)])
  {
    ClaimStepsSafe(cfg, c, 0);
    ClaimRuns(cfg, c, 0);
    acts := ClaimSteps(0);
    c' := S.Exec(cfg, c, acts);
  }

  lemma PlaceRun(cfg: Config, c: S.Ring) returns (acts: seq<Action>, c': S.Ring)
    requires Tiny(cfg) && S.Shape(cfg, c) && |c.prods| > 0 && c.prods[0].pc == Won(0)
    ensures Ran(cfg, c, acts, c') && forall i :: 0 <= i < |acts| ==> !acts[i].Cas?
    ensures c' == c.(slots := c.slots[0 := c.slots[0].(blkPos := 0, offset := 0)],
                     prods := c.prods[0 := c.prods[0].(pc := Fresh(0))])
  {
    MarkEffect(cfg, c, 0, 0);
    acts, c' := Extend(cfg, c, [], WriteBlkPos(0));
    OffsetEffect(cfg, c', 0, 0);
    acts, c' := Extend(cfg, c, acts, WriteOffset(0));
  }

  /** From a fresh ring of three blocks: a capture publishes a block of data block 7 whose one packet has length and
      time 0, and module 0 is handed it. */
  lemma OnePacketRun(cfg: Config, c: S.Ring) returns (acts: seq<Action>, c': S.Ring)
    requires Tiny(cfg) && S.Init(cfg, c) && |c.prods| > 0
    ensures RanSafely(cfg, c, acts, c')
    ensures c'.mods[0].handed == [Slot(7, false, 0, 0, 1)] && c'.slots[0] == Slot(7, false, 0, 0, 1)
    ensures c'.frees == map[0 := Freeing(0, 0)] && c'.pool == c.pool
  {
    var claim, c1 := FirstBlock(cfg, c);
    var c2 := FullRun(cfg, c1, 7);
    SafelyOn(cfg, c, claim, c1, FullSteps(0, 7), c2);
    var consume, c3 := GoConsume(cfg, c2, 0);
    SafelyOn(cfg, c, claim + FullSteps(0, 7), c2, consume, c3);
    acts, c' := claim + FullSteps(0, 7) + consume, c3;
  }

  /** For example, an empty packet at time 0 is taken for the stop signal although it belongs to a data block. */
  lemma WrongStop(cfg: Config) returns (c: S.Ring)
    requires Tiny(cfg)
    ensures Usable(cfg) && Reachable(cfg, c) && TakenWrongly(cfg, c)
  {
    var c0 := TinyStart(cfg);
    var acts: seq<Action>;
    acts, c := OnePacketRun(cfg, c0);
    RunReaches(cfg, c0, acts, c);
  }

  lemma RunReaches(cfg: Config, c0: S.Ring, acts: seq<Action>, c: S.Ring)
    requires S.Init(cfg, c0) && RanSafely(cfg, c0, acts, c)
    ensures Reachable(cfg, c)
  {
  }

  /** Module 0 has a block of data block 7 in slot 0, and the two tests differ on it. */
  ghost predicate TakenWrongly(cfg: Config, c: S.Ring) {
    && S.Shape(cfg, c) && |c.mods[0].handed| == 1 && 0 in c.frees && c.frees[0] == Freeing(0, 0)
    && var blk := c.mods[0].handed[0];
      blk.dataBlk == 7 && blk.offset < |c.pool| && TakenForStop(blk, c.pool[blk.offset]) && !S.IsStopSignal(cfg, c, 0)
  }
}
