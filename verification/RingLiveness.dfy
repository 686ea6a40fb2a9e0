/** The ring never wedges: what is published drains, and a drained ring accepts blocks. */
module RingLiveness {
  import opened RingTypes
  import opened Modular
  import opened RingRefinement
  import opened RingTheorems
  import opened RingRuns
  import S = RingSteps
  import L = RingLog

  /** Every claimed block is published. */
  ghost predicate AllPublished(c: S.Ring) {
    forall p :: 0 <= p < |c.prods| ==> !c.prods[p].pc.Holds()
  }

  /** Module 0 has freed every block it has moved past. */
  ghost predicate AllFreed(cfg: Config, c: S.Ring)
    requires S.Shape(cfg, c)
  {
    forall j :: j in c.frees ==> j >= Moved(c, 0)
  }

  /** A step of a module: of its scan, of its caller's writes and moves, and of module 0 freeing blocks. */
  predicate IsModuleStep(act: Action) {
    OfModule(act) || act.WriteMeta? || act.ClearFinal? || act.ClearData? || act.ClearSize?
  }

  /** The steps that move a module's own positions. */
  predicate OfModule(act: Action) {
    act.ScanLimit? || act.Probe? || act.HandOver? || act.Move?
  }

  /** A step by which a module gets on: a scan that finds something to look at, a block picked, handed
      over or moved past. */
  predicate Effective(cfg: Config, c: S.Ring, act: Action)
    requires S.Shape(cfg, c)
  {
    S.Enabled(cfg, c, act) &&
    match act
    case ScanLimit(id) => S.ScanDistance(cfg, c.mods[id].pick, S.LimPtr(cfg, c, id)) > 0
    case Probe(id, ok) => ok
    case HandOver(id) => true
    case Move(id, count) => count > 0
    case _ => false
  }

  // ------------------------------------------------------------- draining

  /** What module `id` still has to do with the blocks claimed so far. */
  function Todo(c: S.Ring, id: nat): int
    requires id < |c.mods|
  {
    var m := c.mods[id];
    (c.claims - Moved(c, id)) + (c.claims - |m.handed|) + 2 * (c.claims - |m.handed| - |m.pending|)
    + (if m.left > 0 then 0 else 1)
  }

  function TodoUpTo(c: S.Ring, k: nat): int
    requires k <= |c.mods|
  {
    if k == 0 then 0 else TodoUpTo(c, k - 1) + Todo(c, k - 1)
  }

  function Measure(c: S.Ring): int {
    TodoUpTo(c, |c.mods|)
  }

  lemma TodoNonNegative(cfg: Config, c: S.Ring, a: L.Log, id: nat)
    requires Linked(cfg, c, a) && id < cfg.modCount
    ensures 0 <= Todo(c, id)
  {
    Counters(cfg, c, a, id);
    assert ModOk(cfg, c, a, id) && L.CursorOk(cfg, a, id);
  }

  lemma {:induction false} TodoUpToNonNegative(cfg: Config, c: S.Ring, a: L.Log, k: nat)
    requires Linked(cfg, c, a) && k <= cfg.modCount
    ensures 0 <= TodoUpTo(c, k)
  {
    if k > 0 {
      TodoUpToNonNegative(cfg, c, a, k - 1);
      TodoNonNegative(cfg, c, a, k - 1);
    }
  }

  /** Changing one module's share changes the sum by as much. */
  lemma {:induction false} TodoUpToOne(c: S.Ring, c': S.Ring, id: nat, k: nat)
    requires |c'.mods| == |c.mods| && k <= |c.mods| && id < |c.mods|
    requires forall i :: 0 <= i < |c.mods| && i != id ==> Todo(c', i) == Todo(c, i)
    ensures TodoUpTo(c', k) - TodoUpTo(c, k) == if id < k then Todo(c', id) - Todo(c, id) else 0
  {
    if k > 0 {
      TodoUpToOne(c, c', id, k - 1);
    }
  }

  lemma ModuleStepTodo(cfg: Config, c: S.Ring, a: L.Log, act: Action)
    requires Linked(cfg, c, a) && AllPublished(c) && S.Enabled(cfg, c, act) && OfModule(act)
    ensures Todo(S.Next(cfg, c, act), act.id) <= Todo(c, act.id)
    ensures Effective(cfg, c, act) ==> Todo(S.Next(cfg, c, act), act.id) < Todo(c, act.id)
  {
    if act.Move? {
      SimMove(cfg, c, a, act.id, act.count);
    } else if act.Probe? && !act.ok {
      PublishedProbe(cfg, c, a, act.id);
    }
  }

  /** A write to a meta, and the stores that free a block, leave everything alone that is still to be done. */
  lemma {:induction false} SameMeasure(c: S.Ring, c': S.Ring, k: nat)
    requires c'.mods == c.mods && c'.claims == c.claims && k <= |c.mods|
    ensures TodoUpTo(c', k) == TodoUpTo(c, k)
  {
    if k > 0 {
      SameMeasure(c, c', k - 1);
    }
  }

  /** When every claimed block is published, no scan stops short. */
  lemma PublishedProbe(cfg: Config, c: S.Ring, a: L.Log, id: nat)
    requires Linked(cfg, c, a) && AllPublished(c) && id < cfg.modCount && c.mods[id].left > 0
    ensures S.Enabled(cfg, c, Probe(id, true))
  {
    assert ModOk(cfg, c, a, id) && L.CursorOk(cfg, a, id);
    L.ChainBounds(cfg, a, id);
    var x := a.cursors[id].picked;
    assert L.EntryOk(cfg, a, x);
    NoneOpen(cfg, c, a, x);
    assert Live(cfg, a, x) && SlotOk(cfg, c, a, x);
  }

  lemma NoneOpen(cfg: Config, c: S.Ring, a: L.Log, x: nat)
    requires Linked(cfg, c, a) && AllPublished(c) && x < |a.entries|
    ensures a.entries[x].stage != L.Open
  {
    assert L.EntryOk(cfg, a, x);
    if a.entries[x].owner < |a.writers| {
      assert ProdOk(cfg, c, a, a.entries[x].owner);
    }
  }

  lemma StepTodo(cfg: Config, c: S.Ring, a: L.Log, act: Action)
    requires Linked(cfg, c, a) && AllPublished(c) && S.Enabled(cfg, c, act) && IsModuleStep(act)
    ensures 0 <= Measure(S.Next(cfg, c, act)) <= Measure(c)
    ensures Effective(cfg, c, act) ==> Measure(S.Next(cfg, c, act)) < Measure(c)
    ensures L.Enabled(cfg, a, act) && Linked(cfg, S.Next(cfg, c, act), L.Next(cfg, a, act))
    ensures AllPublished(S.Next(cfg, c, act))
  {
    MeasureDown(cfg, c, a, act);
    Simulates(cfg, c, a, act);
    TodoUpToNonNegative(cfg, S.Next(cfg, c, act), L.Next(cfg, a, act), cfg.modCount);
  }

  lemma MeasureDown(cfg: Config, c: S.Ring, a: L.Log, act: Action)
    requires Linked(cfg, c, a) && AllPublished(c) && S.Enabled(cfg, c, act) && IsModuleStep(act)
    ensures Measure(S.Next(cfg, c, act)) <= Measure(c)
    ensures Effective(cfg, c, act) ==> Measure(S.Next(cfg, c, act)) < Measure(c)
    ensures AllPublished(S.Next(cfg, c, act))
  {
    var c' := S.Next(cfg, c, act);
    if OfModule(act) {
      ModuleStepTodo(cfg, c, a, act);
      TodoUpToOne(c, c', act.id, |c.mods|);
    } else {
      SameMeasure(c, c', |c.mods|);
    }
  }

  /** Once the producers have stopped, no module step adds work and every effective one removes some. */
  lemma StepDrains(cfg: Config, c: S.Ring, act: Action)
    requires Usable(cfg) && Reachable(cfg, c) && AllPublished(c) && S.Enabled(cfg, c, act) && IsModuleStep(act)
    ensures 0 <= Measure(S.Next(cfg, c, act)) <= Measure(c)
    ensures Effective(cfg, c, act) ==> Measure(S.Next(cfg, c, act)) < Measure(c)
  {
    var a := LogOf(cfg, c);
    StepTodo(cfg, c, a, act);
  }

  /** The effective steps of a run. */
  function CountEffective(cfg: Config, c: S.Ring, acts: seq<Action>): nat
    requires S.Shape(cfg, c) && S.Legal(cfg, c, acts)
    decreases |acts|
  {
    if acts == [] then 0
    else (if Effective(cfg, c, acts[0]) then 1 else 0) + CountEffective(cfg, S.Next(cfg, c, acts[0]), acts[1..])
  }

  /** Every schedule of module steps makes a bounded number of effective ones. */
  lemma ScheduleBounded(cfg: Config, c: S.Ring, acts: seq<Action>)
    requires Usable(cfg) && S.Shape(cfg, c) && Reachable(cfg, c) && AllPublished(c) && S.Legal(cfg, c, acts)
    requires forall i :: 0 <= i < |acts| ==> IsModuleStep(acts[i])
    ensures CountEffective(cfg, c, acts) <= Measure(c)
  {
    var a := LogOf(cfg, c);
    ScheduleTodo(cfg, c, a, acts);
  }

  lemma {:induction false} ScheduleTodo(cfg: Config, c: S.Ring, a: L.Log, acts: seq<Action>)
    requires Linked(cfg, c, a) && AllPublished(c) && S.Legal(cfg, c, acts)
    requires forall i :: 0 <= i < |acts| ==> IsModuleStep(acts[i])
    ensures CountEffective(cfg, c, acts) <= Measure(c)
    decreases |acts|
  {
    if acts == [] {
      TodoUpToNonNegative(cfg, c, a, cfg.modCount);
    } else {
      StepTodo(cfg, c, a, acts[0]);
      ScheduleTodo(cfg, S.Next(cfg, c, acts[0]), L.Next(cfg, a, acts[0]), acts[1..]);
    }
  }

  /** Draining. Whatever the modules do after the producers have stopped, in whatever order and with module 0
      freeing blocks meanwhile: they get on a bounded number of times, and when they cannot get on any more
      every module has moved past every block and the ring reports itself empty. */
  lemma ScheduleDrains(cfg: Config, c: S.Ring, acts: seq<Action>)
    requires Usable(cfg) && S.Shape(cfg, c) && Reachable(cfg, c) && AllPublished(c) && S.Legal(cfg, c, acts)
    requires forall i :: 0 <= i < |acts| ==> IsModuleStep(acts[i])
    ensures var c' := S.Exec(cfg, c, acts);
      && CountEffective(cfg, c, acts) <= Measure(c)
      && (S.IsRingEmpty(cfg, c') || exists act :: IsModuleStep(act) && Effective(cfg, c', act))
      && ((forall act :: IsModuleStep(act) ==> !Effective(cfg, c', act)) ==>
            S.IsRingEmpty(cfg, c') && forall id :: 0 <= id < cfg.modCount ==> Moved(c', id) == c'.claims == c.claims)
  {
    ScheduleBounded(cfg, c, acts);
    ScheduleKeeps(cfg, c, acts);
    var c' := S.Exec(cfg, c, acts);
    if forall act :: IsModuleStep(act) ==> !Effective(cfg, c', act) {
      DrainedWhenStuck(cfg, c');
    }
  }

  lemma {:induction false} ScheduleKeeps(cfg: Config, c: S.Ring, acts: seq<Action>)
    requires S.Shape(cfg, c) && Reachable(cfg, c) && AllPublished(c) && S.Legal(cfg, c, acts)
    requires forall i :: 0 <= i < |acts| ==> IsModuleStep(acts[i])
    ensures var c' := S.Exec(cfg, c, acts); Reachable(cfg, c') && AllPublished(c') && c'.claims == c.claims
    decreases |acts|
  {
    if acts != [] {
      ReachableGoesOn(cfg, c, acts[0]);
      ModulesLeaveProducers(cfg, c, acts[0]);
      ScheduleKeeps(cfg, S.Next(cfg, c, acts[0]), acts[1..]);
    }
  }

  lemma ModulesLeaveProducers(cfg: Config, c: S.Ring, act: Action)
    requires S.Shape(cfg, c) && S.Enabled(cfg, c, act) && IsModuleStep(act)
    ensures S.Next(cfg, c, act).prods == c.prods && S.Next(cfg, c, act).claims == c.claims
  {
  }

  /** A module with no effective step left has moved past all that is ahead of it. */
  lemma StuckModule(cfg: Config, c: S.Ring, a: L.Log, id: nat)
    requires Linked(cfg, c, a) && AllPublished(c) && id < cfg.modCount
    requires forall act :: OfModule(act) && act.id == id ==> !Effective(cfg, c, act)
    ensures a.cursors[id].moved == L.Ahead(cfg, a, id)
  {
    var m, k := c.mods[id], a.cursors[id];
    assert ModOk(cfg, c, a, id) && L.CursorOk(cfg, a, id);
    assert !Effective(cfg, c, Move(id, 1));
    if m.left > 0 {
      assert !Effective(cfg, c, Probe(id, true));
      PublishedProbe(cfg, c, a, id);
    } else {
      if m.pending != [] {
        assert m.pending[0] == Wrap(k.handed + 0, cfg.blkCount);
      }
      assert !Effective(cfg, c, HandOver(id));
      assert !Effective(cfg, c, ScanLimit(id));
      L.ChainBounds(cfg, a, id);
      LimitRead(cfg, c, a, id);
      ScanDistanceExact(cfg, k.picked, L.Ahead(cfg, a, id));
    }
  }

  lemma {:induction false} AllCaughtUp(cfg: Config, a: L.Log, id: nat)
    requires L.Inv(cfg, a) && 1 <= id < cfg.modCount
    requires forall i :: 0 <= i < cfg.modCount ==> a.cursors[i].moved == L.Ahead(cfg, a, i)
    ensures a.cursors[id].moved == |a.entries|
    decreases id
  {
    if id > 1 {
      AllCaughtUp(cfg, a, id - 1);
    }
  }

  /** When no module has an effective step left, every module has moved past every block and the ring
      reports itself empty. */
  lemma DrainedWhenStuck(cfg: Config, c: S.Ring)
    requires Usable(cfg) && S.Shape(cfg, c) && Reachable(cfg, c) && AllPublished(c)
    requires forall act :: IsModuleStep(act) ==> !Effective(cfg, c, act)
    ensures S.IsRingEmpty(cfg, c)
    ensures forall id :: 0 <= id < cfg.modCount ==> Moved(c, id) == c.claims
  {
    var a := LogOf(cfg, c);
    forall id | 0 <= id < cfg.modCount ensures a.cursors[id].moved == L.Ahead(cfg, a, id) {
      StuckModule(cfg, c, a, id);
    }
    CaughtUp(cfg, c, a);
    EmptyIff(cfg, c);
  }

  lemma CaughtUp(cfg: Config, c: S.Ring, a: L.Log)
    requires Linked(cfg, c, a)
    requires forall id :: 0 <= id < cfg.modCount ==> a.cursors[id].moved == L.Ahead(cfg, a, id)
    ensures forall id :: 0 <= id < cfg.modCount ==> Moved(c, id) == c.claims
  {
    forall id | 0 <= id < cfg.modCount ensures Moved(c, id) == c.claims {
      Counters(cfg, c, a, id);
      if cfg.modCount > 1 {
        AllCaughtUp(cfg, a, if id == 0 then cfg.modCount - 1 else id);
      }
    }
  }

  // ----------------------------------------------------- deadlock freedom

  /** With everything moved past freed, the next slot reads size 0 unless the ring is full. */
  lemma NextSlotReady(cfg: Config, c: S.Ring, a: L.Log)
    requires Linked(cfg, c, a) && AllFreed(cfg, c)
    requires c.claims + 3 <= Moved(c, 0) + cfg.blkCount
    ensures c.slots[Wrap(c.claims, cfg.blkCount)].size == 0
  {
    Counters(cfg, c, a, 0);
    if c.claims >= cfg.blkCount {
      var x := c.claims - cfg.blkCount;
      assert L.CursorOk(cfg, a, 0) && FreeOk(cfg, c, a, x);
      assert a.entries[x].stage != L.Open;
      NextSlotClean(cfg, c, a);
    }
  }

  /** Deadlock freedom: with every claimed block published and every block moved past freed, an idle
      producer can claim at once, or some module has an effective step. */
  lemma NeverWedged(cfg: Config, c: S.Ring, p: nat)
    requires Usable(cfg) && S.Shape(cfg, c) && Reachable(cfg, c) && AllPublished(c) && AllFreed(cfg, c)
    requires p < |c.prods| && c.prods[p].pc.Idle?
    ensures (S.Legal(cfg, c, ClaimSteps(p)) && S.Exec(cfg, c, ClaimSteps(p)).claims == c.claims + 1)
         || exists act :: IsModuleStep(act) && Effective(cfg, c, act)
  {
    var a := LogOf(cfg, c);
    Counters(cfg, c, a, 0);
    if c.claims + 3 <= Moved(c, 0) + cfg.blkCount {
      NextSlotReady(cfg, c, a);
      LimitCheck(cfg, c, a);
      ClaimRuns(cfg, c, p);
    } else if forall act :: IsModuleStep(act) ==> !Effective(cfg, c, act) {
      DrainedWhenStuck(cfg, c);
    }
  }
}
