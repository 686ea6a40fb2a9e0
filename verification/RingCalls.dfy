/** What a capture's calls of `GetMeta4PktBlk` and `FinalMetaBlk` publish, in any run of the whole ring. */
module RingCalls {
  import opened RingTypes
  import opened RingRefinement
  import opened RingTheorems
  import opened RingProducerRuns
  import opened RingRuns
  import S = RingSteps
  import L = RingLog

  /** Producer `p` sends no signal in the run. */
  predicate NoSignal(run: seq<Action>, p: nat) {
    forall i :: 0 <= i < |run| ==> !(run[i].SignalMeta? && run[i].p == p)
  }

  /** The data blocks that producer `p` took metas for since it last published a final block, when it had taken
      `calls` before the run. */
  function CallsAfter(calls: seq<nat>, run: seq<Action>, p: nat): seq<nat>
    decreases |run|
  {
    if run == [] then calls else CallsAfter(CallsStep(calls, run[0], p), run[1..], p)
  }

  function CallsStep(calls: seq<nat>, act: Action, p: nat): seq<nat> {
    if act.TakeMeta? && act.p == p then calls + [act.data] else if act == PublishFinal(p) then [] else calls
  }

  lemma {:induction false} CallsConcat(calls: seq<nat>, run: seq<Action>, more: seq<Action>, all: seq<Action>, p: nat)
    requires all == run + more
    ensures CallsAfter(calls, all, p) == CallsAfter(CallsAfter(calls, run, p), more, p)
    decreases |run|
  {
    if run == [] {
      assert all == more;
    } else {
      assert all[0] == run[0] && all[1..] == run[1..] + more;
      CallsConcat(CallsStep(calls, run[0], p), run[1..], more, all[1..], p);
    }
  }

  // ------------------------------------------------------------- the log

  /** Producer `p` holds no signal. */
  predicate Quiet(a: L.Log, p: nat)
    requires p < |a.writers|
  {
    var pc := a.writers[p].pc;
    pc.Filling? || pc.Sealed? ==> !pc.signal
  }

  lemma LogCalls(cfg: Config, a: L.Log, act: Action, p: nat)
    requires L.Shape(cfg, a) && cfg.blkCount > 0 && L.Enabled(cfg, a, act) && p < |a.writers| && Quiet(a, p)
    requires !(act.SignalMeta? && act.p == p)
    ensures var a' := L.Next(cfg, a, act);
      Quiet(a', p) && a'.writers[p].calls == CallsStep(a.writers[p].calls, act, p)
  {
  }

  lemma {:induction false} LogRunCalls(cfg: Config, a: L.Log, run: seq<Action>, a': L.Log, p: nat)
    requires L.Shape(cfg, a) && cfg.blkCount > 0 && LogRun(cfg, a, run, a') && p < |a.writers| && Quiet(a, p)
    requires NoSignal(run, p)
    ensures p < |a'.writers| && Quiet(a', p)
    ensures a'.writers[p].calls == CallsAfter(a.writers[p].calls, run, p)
    decreases |run|
  {
    if run != [] {
      LogCalls(cfg, a, run[0], p);
      LogRunCalls(cfg, L.Next(cfg, a, run[0]), run[1..], a', p);
    }
  }

  lemma RunBehind(cfg: Config, c0: S.Ring, run: seq<Action>) returns (a: L.Log)
    requires Usable(cfg) && S.Init(cfg, c0) && S.Legal(cfg, c0, run) && S.SafeRun(cfg, c0, run)
    ensures LogRun(cfg, L.InitLog(cfg, |c0.prods|), run, a)
    ensures Behind(cfg, S.Exec(cfg, c0, run), a) && Linked(cfg, S.Exec(cfg, c0, run), a)
  {
    InitLinked(cfg, c0);
    a := RunRefines(cfg, c0, L.InitLog(cfg, |c0.prods|), run);
  }

  /** In any run of the ring, with whatever others do in between: the blocks that producer `p` has published when it
      publishes a final one hold exactly the metas it took since the final one before, in the order of the
      calls. */
  lemma FinalClosesCalls(cfg: Config, c0: S.Ring, run: seq<Action>, p: nat) returns (a: L.Log, blocks: seq<nat>)
    requires Usable(cfg) && S.Init(cfg, c0) && S.Legal(cfg, c0, run) && S.SafeRun(cfg, c0, run)
    requires p < |c0.prods| && NoSignal(run, p) && S.Enabled(cfg, S.Exec(cfg, c0, run), PublishFinal(p))
    ensures Behind(cfg, S.Exec(cfg, c0, run), a) && L.Shape(cfg, a) && L.Enabled(cfg, a, PublishFinal(p))
    ensures ClosedRun(L.Next(cfg, a, PublishFinal(p)).entries, blocks, p, CallsAfter([], run, p))
  {
    a := RunBehind(cfg, c0, run);
    LogRunCalls(cfg, L.InitLog(cfg, |c0.prods|), run, a, p);
    Simulates(cfg, S.Exec(cfg, c0, run), a, PublishFinal(p));
    blocks := a.writers[p].batch + [a.writers[p].pc.t];
    FinalClosesRun(cfg, S.Exec(cfg, c0, run), a, p);
  }

  // ---------------------------------------------------------- whole calls

  /** A call of `GetMeta4PktBlk`, or steps of others. */
  datatype Event =
    | MetaCall(data: nat, held: bool, needed: bool)
    | Others(steps: seq<Action>)

  /** Nobody but `p` takes a meta or publishes a final block in `p`'s name. */
  predicate WellFormed(history: seq<Event>, p: nat) {
    forall i :: 0 <= i < |history| && history[i].Others? ==> Elsewhere(history[i].steps, p)
  }

  predicate Elsewhere(steps: seq<Action>, p: nat) {
    forall i :: 0 <= i < |steps| ==> !OfCapture(steps[i], p)
  }

  predicate OfCapture(act: Action, p: nat) {
    (act.TakeMeta? || act.SignalMeta? || act.PublishFinal?) && act.p == p
  }

  function StepsOf(e: Event, p: nat): seq<Action> {
    match e
    case MetaCall(data, held, needed) => MetaSteps(p, data, held, needed)
    case Others(steps) => steps
  }

  function AllSteps(history: seq<Event>, p: nat): seq<Action> {
    if history == [] then [] else StepsOf(history[0], p) + AllSteps(history[1..], p)
  }

  /** The data blocks the calls were for. */
  function Asked(history: seq<Event>): seq<nat> {
    if history == [] then []
    else (if history[0].MetaCall? then [history[0].data] else []) + Asked(history[1..])
  }

  lemma {:induction false} ElsewhereKeeps(calls: seq<nat>, steps: seq<Action>, p: nat)
    requires Elsewhere(steps, p)
    ensures CallsAfter(calls, steps, p) == calls && NoSignal(steps, p)
    decreases |steps|
  {
    if steps != [] {
      assert !OfCapture(steps[0], p);
      ElsewhereKeeps(calls, steps[1..], p);
      assert forall i :: 0 < i < |steps| ==> steps[i] == steps[1..][i - 1];
    }
  }

  /** A call takes one meta, for the data block it was called for. */
  lemma CallTakesOne(calls: seq<nat>, p: nat, data: nat, held: bool, needed: bool)
    ensures CallsAfter(calls, MetaSteps(p, data, held, needed), p) == calls + [data]
    ensures NoSignal(MetaSteps(p, data, held, needed), p)
  {
    var room, take := RoomSteps(p, data, held, needed), [TakeMeta(p, data)];
    assert Elsewhere(room, p);
    ElsewhereKeeps(calls, room, p);
    CallsConcat(calls, room, take, MetaSteps(p, data, held, needed), p);
    assert CallsAfter(CallsStep(calls, take[0], p), take[1..], p) == calls + [data];
  }

  lemma EventCalls(calls: seq<nat>, e: Event, p: nat)
    requires e.Others? ==> Elsewhere(e.steps, p)
    ensures CallsAfter(calls, StepsOf(e, p), p) == calls + if e.MetaCall? then [e.data] else []
    ensures NoSignal(StepsOf(e, p), p)
  {
    match e
    case MetaCall(data, held, needed) => CallTakesOne(calls, p, data, held, needed);
    case Others(steps) => ElsewhereKeeps(calls, steps, p);
  }

  lemma {:induction false} HistoryCalls(calls: seq<nat>, history: seq<Event>, p: nat)
    requires WellFormed(history, p)
    ensures CallsAfter(calls, AllSteps(history, p), p) == calls + Asked(history)
    ensures NoSignal(AllSteps(history, p), p)
    decreases |history|
  {
    if history != [] {
      var e, rest := history[0], history[1..];
      EventCalls(calls, e, p);
      var asked := if e.MetaCall? then [e.data] else [];
      HistoryCalls(calls + asked, rest, p);
      CallsJoin(calls, StepsOf(e, p), AllSteps(rest, p), AllSteps(history, p), p, asked, Asked(rest));
      QuietTogether(StepsOf(e, p), AllSteps(rest, p), AllSteps(history, p), p);
    }
  }

  lemma CallsJoin(calls: seq<nat>, steps: seq<Action>, more: seq<Action>, all: seq<Action>, p: nat, asked: seq<nat>,
                  rest: seq<nat>)
    requires all == steps + more
    requires CallsAfter(calls, steps, p) == calls + asked
    requires CallsAfter(calls + asked, more, p) == (calls + asked) + rest
    ensures CallsAfter(calls, all, p) == calls + (asked + rest)
  {
    CallsConcat(calls, steps, more, all, p);
    Regrouped(calls, asked, rest);
  }

  lemma Regrouped(calls: seq<nat>, asked: seq<nat>, rest: seq<nat>)
    ensures (calls + asked) + rest == calls + (asked + rest)
  {
  }

  lemma QuietTogether(steps: seq<Action>, more: seq<Action>, all: seq<Action>, p: nat)
    requires all == steps + more && NoSignal(steps, p) && NoSignal(more, p)
    ensures NoSignal(all, p)
  {
  }

  /** The producer run law for whole calls: after any run `before` that leaves producer `p` with nothing taken, it
      makes the calls of `history`, with steps of others in between, and then finalises. The blocks it has published
      then hold one meta for each of these calls, in order; only the last is final. */
  lemma CallsClosed(cfg: Config, c0: S.Ring, before: seq<Action>, history: seq<Event>, p: nat, run: seq<Action>)
    returns (a: L.Log, blocks: seq<nat>)
    requires Usable(cfg) && S.Init(cfg, c0) && p < |c0.prods|
    requires NoSignal(before, p) && CallsAfter([], before, p) == [] && WellFormed(history, p)
    requires run == before + AllSteps(history, p) + [FinalSteps(p)[0]]
    requires S.Legal(cfg, c0, run) && S.SafeRun(cfg, c0, run)
    ensures S.Enabled(cfg, S.Exec(cfg, c0, run), FinalSteps(p)[1])
    ensures Behind(cfg, S.Exec(cfg, c0, run), a) && L.Shape(cfg, a) && L.Enabled(cfg, a, FinalSteps(p)[1])
    ensures ClosedRun(L.Next(cfg, a, FinalSteps(p)[1]).entries, blocks, p, Asked(history))
  {
    var front, seal := before + AllSteps(history, p), [SetFinal(p)];
    HistoryCalls([], history, p);
    CallsConcat([], before, AllSteps(history, p), front, p);
    CallsConcat([], front, seal, run, p);
    assert CallsAfter(Asked(history), seal, p) == CallsAfter(Asked(history), seal[1..], p) == Asked(history);
    SealedLast(cfg, c0, front, run, p);
    a, blocks := FinalClosesCalls(cfg, c0, run, p);
  }

  lemma {:induction false} SealedLast(cfg: Config, c: S.Ring, front: seq<Action>, run: seq<Action>, p: nat)
    requires S.Shape(cfg, c) && run == front + [SetFinal(p)] && S.Legal(cfg, c, run)
    ensures S.Enabled(cfg, S.Exec(cfg, c, run), PublishFinal(p))
    decreases |front|
  {
    if front == [] {
      assert run[1..] == [];
    } else {
      assert run[0] == front[0] && run[1..] == front[1..] + [SetFinal(p)];
      SealedLast(cfg, S.Next(cfg, c, front[0]), front[1..], run[1..], p);
    }
  }

  // ------------------------------------------------------- one call at once

  /** A call that nobody disturbs leaves a reachable ring reachable; a block that it has to publish first is not the
      one at the tail. */
  lemma CallReachable(cfg: Config, c: S.Ring, p: nat, data: nat, held: bool, needed: bool)
    requires Usable(cfg) && S.Shape(cfg, c) && Reachable(cfg, c) && p < |c.prods|
    requires S.Legal(cfg, c, MetaSteps(p, data, held, needed))
    requires needed ==> (c.tail + 2) % cfg.blkCount != c.mods[0].blkPtr
    requires needed ==> c.tail < |c.slots| && c.slots[c.tail].size == 0
    ensures held && needed ==> c.prods[p].pc.Holds() && c.prods[p].pc.t != c.tail
    ensures Reachable(cfg, S.Exec(cfg, c, MetaSteps(p, data, held, needed)))
  {
    var take := [TakeMeta(p, data)];
    LegalSplit(cfg, c, RoomSteps(p, data, held, needed), take, MetaSteps(p, data, held, needed));
    if needed {
      RenewalReachable(cfg, c, p, data, held);
    }
    ReachableGoesOn(cfg, S.Exec(cfg, c, RoomSteps(p, data, held, needed)), take[0]);
  }

  lemma RenewalReachable(cfg: Config, c: S.Ring, p: nat, data: nat, held: bool)
    requires Usable(cfg) && S.Shape(cfg, c) && Reachable(cfg, c) && p < |c.prods|
    requires S.Legal(cfg, c, RoomSteps(p, data, held, true))
    requires (c.tail + 2) % cfg.blkCount != c.mods[0].blkPtr && c.tail < |c.slots| && c.slots[c.tail].size == 0
    ensures held ==> c.prods[p].pc.Holds() && c.prods[p].pc.t != c.tail
    ensures Reachable(cfg, S.Exec(cfg, c, RoomSteps(p, data, held, true)))
  {
    if held {
      HeldRenewal(cfg, c, p, data, [PublishFull(p)], FreshSteps(p, data), RoomSteps(p, data, held, true));
    } else {
      assert RoomSteps(p, data, held, true) == FreshSteps(p, data);
      FreshReachable(cfg, c, p, data);
    }
  }

  lemma HeldRenewal(cfg: Config, c: S.Ring, p: nat, data: nat, give: seq<Action>, claim: seq<Action>,
                    all: seq<Action>)
    requires Usable(cfg) && S.Shape(cfg, c) && Reachable(cfg, c) && p < |c.prods|
    requires give == [PublishFull(p)] && claim == FreshSteps(p, data) && all == give + claim && S.Legal(cfg, c, all)
    requires (c.tail + 2) % cfg.blkCount != c.mods[0].blkPtr && c.tail < |c.slots| && c.slots[c.tail].size == 0
    ensures c.prods[p].pc.Holds() && c.prods[p].pc.t != c.tail
    ensures Reachable(cfg, S.Exec(cfg, c, all))
  {
    LegalSplit(cfg, c, give, claim, all);
    OneStep(cfg, c, give, PublishFull(p));
    GivenBack(cfg, c, p, PublishFull(p));
    FreshReachable(cfg, S.Next(cfg, c, PublishFull(p)), p, data);
  }

  lemma OneStep(cfg: Config, c: S.Ring, acts: seq<Action>, act: Action)
    requires S.Shape(cfg, c) && acts == [act] && S.Legal(cfg, c, acts)
    ensures S.Enabled(cfg, c, act) && S.Exec(cfg, c, acts) == S.Next(cfg, c, act)
  {
  }

  lemma GivenBack(cfg: Config, c: S.Ring, p: nat, give: Action)
    requires Usable(cfg) && S.Shape(cfg, c) && Reachable(cfg, c) && give == PublishFull(p) && S.Enabled(cfg, c, give)
    ensures c.prods[p].pc.Holds() && c.prods[p].pc.t != c.tail
    ensures var c' := S.Next(cfg, c, give);
      && Reachable(cfg, c') && c'.tail == c.tail && c'.mods == c.mods && |c'.prods| == |c.prods|
      && |c'.slots| == |c.slots| && (c.tail < |c.slots| ==> c'.slots[c.tail] == c.slots[c.tail])
  {
    HeldNotTail(cfg, c, p);
    ReachableGoesOn(cfg, c, give);
  }

  lemma FreshReachable(cfg: Config, c: S.Ring, p: nat, data: nat)
    requires Usable(cfg) && S.Shape(cfg, c) && Reachable(cfg, c) && p < |c.prods|
    requires S.Legal(cfg, c, FreshSteps(p, data))
    requires (c.tail + 2) % cfg.blkCount != c.mods[0].blkPtr && c.tail < |c.slots| && c.slots[c.tail].size == 0
    ensures Reachable(cfg, S.Exec(cfg, c, FreshSteps(p, data)))
  {
    var rest := [WriteBlkPos(p), WriteOffset(p)] + [Attach(p, data)];
    assert FreshSteps(p, data) == ClaimSteps(p) + rest;
    assert S.Enabled(cfg, c, FreshSteps(p, data)[0]);
    ClaimThen(cfg, c, p, ClaimSteps(p), rest, FreshSteps(p, data));
  }

  lemma ClaimThen(cfg: Config, c: S.Ring, p: nat, claim: seq<Action>, rest: seq<Action>, all: seq<Action>)
    requires S.Shape(cfg, c) && Reachable(cfg, c) && p < |c.prods| && c.prods[p].pc.Idle? && c.tail < cfg.blkCount
    requires (c.tail + 2) % cfg.blkCount != c.mods[0].blkPtr && c.slots[c.tail].size == 0
    requires claim == ClaimSteps(p) && all == claim + rest && S.Legal(cfg, c, all)
    requires forall i :: 0 <= i < |rest| ==> !rest[i].Cas?
    ensures Reachable(cfg, S.Exec(cfg, c, all))
  {
    LegalSplit(cfg, c, claim, rest, all);
    ClaimStepsSafe(cfg, c, p);
    SafeRunReaches(cfg, c, claim);
    NoClaimSafe(cfg, S.Exec(cfg, c, claim), rest);
    SafeRunReaches(cfg, S.Exec(cfg, c, claim), rest);
  }
}
