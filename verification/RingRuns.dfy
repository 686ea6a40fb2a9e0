/** Runs of the step system, and the runs that the calls of an undisturbed producer are. */
module RingRuns {
  import opened RingTypes
  import opened Modular
  import S = RingSteps

  lemma {:induction false} LegalAppend(cfg: Config, c: S.Ring, acts: seq<Action>, act: Action)
    requires S.Shape(cfg, c) && S.Legal(cfg, c, acts) && S.Enabled(cfg, S.Exec(cfg, c, acts), act)
    ensures S.Legal(cfg, c, acts + [act])
    ensures S.SafeRun(cfg, c, acts) && S.SafeClaim(cfg, S.Exec(cfg, c, acts), act) ==> S.SafeRun(cfg, c, acts + [act])
    ensures S.Exec(cfg, c, acts + [act]) == S.Next(cfg, S.Exec(cfg, c, acts), act)
    decreases |acts|
  {
    if acts == [] {
      var rest: seq<Action> := [];
      assert ([] + [act])[1..] == rest;
      assert S.Legal(cfg, S.Next(cfg, c, act), rest);
    } else {
      assert (acts + [act])[1..] == acts[1..] + [act];
      LegalAppend(cfg, S.Next(cfg, c, acts[0]), acts[1..], act);
    }
  }

  /** The run `acts` leads from `c` to `end`. */
  predicate Leads(cfg: Config, c: S.Ring, acts: seq<Action>, end: S.Ring)
    requires S.Shape(cfg, c)
    decreases |acts|
  {
    if acts == [] then c == end
    else S.Enabled(cfg, c, acts[0]) && Leads(cfg, S.Next(cfg, c, acts[0]), acts[1..], end)
  }

  lemma {:induction false} LeadsIff(cfg: Config, c: S.Ring, acts: seq<Action>, end: S.Ring)
    requires S.Shape(cfg, c)
    ensures Leads(cfg, c, acts, end) <==> S.Legal(cfg, c, acts) && S.Exec(cfg, c, acts) == end
    decreases |acts|
  {
    if acts != [] && S.Enabled(cfg, c, acts[0]) {
      LeadsIff(cfg, S.Next(cfg, c, acts[0]), acts[1..], end);
    }
  }

  /** Two runs one after the other are a run. */
  lemma {:induction false} LeadsConcat(cfg: Config, c: S.Ring, acts: seq<Action>, mid: S.Ring, more: seq<Action>,
                                       end: S.Ring, all: seq<Action>)
    requires S.Shape(cfg, c) && Leads(cfg, c, acts, mid)
    requires S.Shape(cfg, mid) && Leads(cfg, mid, more, end) && all == acts + more
    ensures Leads(cfg, c, all, end)
    decreases |acts|
  {
    if acts == [] {
      assert all == more;
    } else {
      assert all[0] == acts[0] && all[1..] == acts[1..] + more;
      LeadsConcat(cfg, S.Next(cfg, c, acts[0]), acts[1..], mid, more, end, all[1..]);
    }
  }

  lemma LegalConcat(cfg: Config, c: S.Ring, acts: seq<Action>, more: seq<Action>)
    requires S.Shape(cfg, c) && S.Legal(cfg, c, acts) && S.Legal(cfg, S.Exec(cfg, c, acts), more)
    ensures S.Legal(cfg, c, acts + more)
    ensures S.Exec(cfg, c, acts + more) == S.Exec(cfg, S.Exec(cfg, c, acts), more)
  {
    var mid := S.Exec(cfg, c, acts);
    var end := S.Exec(cfg, mid, more);
    LeadsIff(cfg, c, acts, mid);
    LeadsIff(cfg, mid, more, end);
    LeadsConcat(cfg, c, acts, mid, more, end, acts + more);
    LeadsIff(cfg, c, acts + more, end);
  }

  /** The first part of a run is a run, and so is what is left. */
  lemma {:induction false} LegalSplit(cfg: Config, c: S.Ring, acts: seq<Action>, more: seq<Action>, all: seq<Action>)
    requires S.Shape(cfg, c) && all == acts + more && S.Legal(cfg, c, all)
    ensures S.Legal(cfg, c, acts) && S.Legal(cfg, S.Exec(cfg, c, acts), more)
    ensures S.Exec(cfg, c, all) == S.Exec(cfg, S.Exec(cfg, c, acts), more)
    decreases |acts|
  {
    if acts == [] {
      assert all == more;
    } else {
      assert all[0] == acts[0] && all[1..] == acts[1..] + more;
      LegalSplit(cfg, S.Next(cfg, c, acts[0]), acts[1..], more, all[1..]);
    }
  }

  /** One more step of a run. */
  lemma Extend(cfg: Config, c: S.Ring, acts: seq<Action>, act: Action) returns (acts': seq<Action>, c': S.Ring)
    requires S.Shape(cfg, c) && S.Legal(cfg, c, acts) && S.Enabled(cfg, S.Exec(cfg, c, acts), act)
    ensures acts' == acts + [act] && S.Legal(cfg, c, acts')
    ensures c' == S.Exec(cfg, c, acts') == S.Next(cfg, S.Exec(cfg, c, acts), act)
  {
    LegalAppend(cfg, c, acts, act);
    acts' := acts + [act];
    c' := S.Exec(cfg, c, acts');
  }

  lemma SmallPos(x: nat, n: nat)
    requires x < n
    ensures x % n == x
  {
  }

  /** The reads and the compare-and-swap by which an idle producer claims a block at once. */
  function ClaimSteps(p: nat): seq<Action> {
    [ReadTail(p), ReadLimit(p, true), ReadSize(p, true), Cas(p, true)]
  }

  /** The reads of an undisturbed producer, when the limit check passes and the next slot reads size 0. */
  lemma ReadsRun(cfg: Config, c: S.Ring, p: nat)
    requires S.Shape(cfg, c) && p < |c.prods| && c.prods[p].pc.Idle? && c.tail < cfg.blkCount
    requires (c.tail + 2) % cfg.blkCount != c.mods[0].blkPtr && c.slots[c.tail].size == 0
    ensures S.Legal(cfg, c, ClaimSteps(p)[..3])
    ensures S.Exec(cfg, c, ClaimSteps(p)[..3]) == c.(prods := c.prods[p := S.Producer(SizeOk(c.tail), c.claims)])
  {
    SmallPos(c.tail, cfg.blkCount);
    var acts, cc := Extend(cfg, c, [], ReadTail(p));
    assert cc == c.(prods := c.prods[p := S.Producer(TailRead(c.tail), c.claims)]);
    acts, cc := Extend(cfg, c, acts, ReadLimit(p, true));
    assert cc == c.(prods := c.prods[p := S.Producer(LimitOk(c.tail), c.claims)]);
    acts, cc := Extend(cfg, c, acts, ReadSize(p, true));
    assert acts == ClaimSteps(p)[..3];
  }

  lemma CasEffect(cfg: Config, c: S.Ring, p: nat, t: nat)
    requires S.Shape(cfg, c) && p < |c.prods| && c.prods[p].pc == SizeOk(t) && c.tail == t < cfg.blkCount
    ensures S.Enabled(cfg, c, Cas(p, true))
    ensures S.Next(cfg, c, Cas(p, true)) ==
      c.(tail := (t + 1) % cfg.blkCount, claims := c.claims + 1, prods := c.prods[p := S.Producer(Won(t),
          c.prods[p].seen)])
  {
  }

  /** An undisturbed producer claims a block when the limit check passes and the next slot reads size 0. */
  lemma ClaimRuns(cfg: Config, c: S.Ring, p: nat)
    requires S.Shape(cfg, c) && p < |c.prods| && c.prods[p].pc.Idle? && c.tail < cfg.blkCount
    requires (c.tail + 2) % cfg.blkCount != c.mods[0].blkPtr && c.slots[c.tail].size == 0
    ensures S.Legal(cfg, c, ClaimSteps(p))
    ensures S.Exec(cfg, c, ClaimSteps(p)) ==
      c.(tail := (c.tail + 1) % cfg.blkCount, claims := c.claims + 1,
         prods := c.prods[p := S.Producer(Won(c.tail), c.claims)])
  {
    ReadsRun(cfg, c, p);
    var read := c.(prods := c.prods[p := S.Producer(SizeOk(c.tail), c.claims)]);
    CasEffect(cfg, read, p, c.tail);
    var acts, cc := Extend(cfg, c, ClaimSteps(p)[..3], Cas(p, true));
    assert acts == ClaimSteps(p);
  }

  /** An undisturbed `GetEmptyMetaBlk` that finds the ring full or the block not free. */
  lemma RefusedRun(cfg: Config, c: S.Ring, p: nat) returns (acts: seq<Action>)
    requires S.Shape(cfg, c) && p < |c.prods| && c.prods[p].pc == Idle && c.tail < cfg.blkCount
    requires (c.tail + 2) % cfg.blkCount == c.mods[0].blkPtr || c.slots[c.tail].size != 0
    ensures S.Legal(cfg, c, acts) && S.Exec(cfg, c, acts) == c.(prods := c.prods[p := S.Producer(Idle, c.claims)])
  {
    SmallPos(c.tail, cfg.blkCount);
    var cc: S.Ring;
    acts, cc := Extend(cfg, c, [], ReadTail(p));
    assert cc == c.(prods := c.prods[p := S.Producer(TailRead(c.tail), c.claims)]);
    if (c.tail + 2) % cfg.blkCount == c.mods[0].blkPtr {
      acts, cc := Extend(cfg, c, acts, ReadLimit(p, false));
    } else {
      acts, cc := Extend(cfg, c, acts, ReadLimit(p, true));
      assert cc == c.(prods := c.prods[p := S.Producer(LimitOk(c.tail), c.claims)]);
      acts, cc := Extend(cfg, c, acts, ReadSize(p, false));
    }
  }

  /** An undisturbed `GetEmptyMetaBlk` that succeeds. */
  lemma PlacedRun(cfg: Config, c: S.Ring, p: nat) returns (acts: seq<Action>)
    requires S.Shape(cfg, c) && p < |c.prods| && c.prods[p].pc == Idle && c.tail < cfg.blkCount
    requires (c.tail + 2) % cfg.blkCount != c.mods[0].blkPtr && c.slots[c.tail].size == 0
    ensures acts == ClaimSteps(p) + [WriteBlkPos(p), WriteOffset(p)]
    ensures S.Legal(cfg, c, acts)
    ensures S.Exec(cfg, c, acts) ==
      c.(tail := (c.tail + 1) % cfg.blkCount, claims := c.claims + 1,
         slots := c.slots[c.tail := c.slots[c.tail].(blkPos := c.tail, offset := c.tail * cfg.capacity)],
         prods := c.prods[p := S.Producer(Fresh(c.tail), c.claims)])
  {
    ClaimRuns(cfg, c, p);
    acts := ClaimSteps(p);
    var cc := S.Exec(cfg, c, acts);
    MarkEffect(cfg, cc, p, c.tail);
    acts, cc := Extend(cfg, c, acts, WriteBlkPos(p));
    OffsetEffect(cfg, cc, p, c.tail);
    acts, cc := Extend(cfg, c, acts, WriteOffset(p));
    assert acts == ClaimSteps(p) + [WriteBlkPos(p), WriteOffset(p)];
  }

  lemma MarkEffect(cfg: Config, c: S.Ring, p: nat, t: nat)
    requires S.Shape(cfg, c) && p < |c.prods| && c.prods[p].pc == Won(t) && t < |c.slots|
    ensures S.Enabled(cfg, c, WriteBlkPos(p))
    ensures S.Next(cfg, c, WriteBlkPos(p)) ==
      c.(slots := c.slots[t := c.slots[t].(blkPos := t)], prods := c.prods[p := c.prods[p].(pc := Marked(t))])
  {
  }

  lemma OffsetEffect(cfg: Config, c: S.Ring, p: nat, t: nat)
    requires S.Shape(cfg, c) && p < |c.prods| && c.prods[p].pc == Marked(t) && t < |c.slots|
    ensures S.Enabled(cfg, c, WriteOffset(p))
    ensures S.Next(cfg, c, WriteOffset(p)) ==
      c.(slots := c.slots[t := c.slots[t].(offset := t * cfg.capacity)],
         prods := c.prods[p := c.prods[p].(pc := Fresh(t))])
  {
  }

  lemma AttachEffect(cfg: Config, c: S.Ring, p: nat, t: nat, data: nat)
    requires S.Shape(cfg, c) && p < |c.prods| && c.prods[p].pc == Fresh(t) && t < |c.slots|
    ensures S.Enabled(cfg, c, Attach(p, data))
    ensures S.Next(cfg, c, Attach(p, data)) ==
      c.(slots := c.slots[t := c.slots[t].(dataBlk := data)],
         prods := c.prods[p := c.prods[p].(pc := Filling(t, 0, data, false))])
  {
  }

  /** What `FinalMetaBlk` does with a held block. */
  function FinalSteps(p: nat): seq<Action> {
    [SetFinal(p), PublishFinal(p)]
  }

  /** A block is claimed, put in its place and given to a data block. */
  function FreshSteps(p: nat, data: nat): seq<Action> {
    ClaimSteps(p) + [WriteBlkPos(p), WriteOffset(p)] + [Attach(p, data)]
  }

  /** A run goes on with a claim `more` and the attachment of a data block. */
  lemma FreshRun(cfg: Config, c: S.Ring, acts: seq<Action>, before: S.Ring, more: seq<Action>, mid: S.Ring, p: nat,
                 t: nat, data: nat)
    returns (acts': seq<Action>, cc: S.Ring)
    requires S.Shape(cfg, c) && S.Legal(cfg, c, acts) && before == S.Exec(cfg, c, acts)
    requires more == ClaimSteps(p) + [WriteBlkPos(p), WriteOffset(p)]
    requires S.Legal(cfg, before, more) && mid == S.Exec(cfg, before, more)
    requires p < |mid.prods| && mid.prods[p].pc == Fresh(t) && t < |mid.slots|
    ensures acts' == acts + FreshSteps(p, data) && S.Legal(cfg, c, acts') && cc == S.Exec(cfg, c, acts')
    ensures cc == mid.(slots := mid.slots[t := mid.slots[t].(dataBlk := data)],
                       prods := mid.prods[p := mid.prods[p].(pc := Filling(t, 0, data, false))])
  {
    LegalConcat(cfg, c, acts, more);
    AttachEffect(cfg, mid, p, t, data);
    acts', cc := Extend(cfg, c, acts + more, Attach(p, data));
    assert (acts + more) + [Attach(p, data)] == acts + (more + [Attach(p, data)]);
  }

  /** What `GetMeta4PktBlk` does: if it needs a new block it publishes the one that is `held`, takes a fresh one,
      and then in any case one meta. */
  function MetaSteps(p: nat, data: nat, held: bool, needed: bool): seq<Action> {
    RoomSteps(p, data, held, needed) + [TakeMeta(p, data)]
  }

  function RoomSteps(p: nat, data: nat, held: bool, needed: bool): seq<Action> {
    if needed then (if held then [PublishFull(p)] else []) + FreshSteps(p, data) else []
  }

  /** The stores of a signal. */
  function SignalSteps(p: nat, ts: nat): seq<Action> {
    [SignalMeta(p, ts), SetFinal(p), PublishFinal(p)]
  }

  lemma SignalEffect(cfg: Config, c: S.Ring, p: nat, t: nat, ts: nat, k: nat)
    requires S.Shape(cfg, c) && p < |c.prods| && c.prods[p].pc == Fresh(t) && t < |c.slots|
    requires k == c.slots[t].offset < |c.pool|
    ensures S.Enabled(cfg, c, SignalMeta(p, ts))
    ensures S.Next(cfg, c, SignalMeta(p, ts)) ==
      c.(pool := c.pool[k := Meta(ts, 0, c.pool[k].body)],
         prods := c.prods[p := c.prods[p].(pc := Filling(t, 1, 0, true))])
  {
  }

  lemma SealEffect(cfg: Config, c: S.Ring, p: nat, t: nat, used: nat)
    requires S.Shape(cfg, c) && p < |c.prods| && t < |c.slots| && used > 0
    requires c.prods[p].pc == Filling(t, used, 0, true)
    ensures S.Enabled(cfg, c, SetFinal(p))
    ensures S.Next(cfg, c, SetFinal(p)) ==
      c.(slots := c.slots[t := c.slots[t].(isFinal := true)],
         prods := c.prods[p := c.prods[p].(pc := Sealed(t, used, 0, true))])
  {
  }

  lemma PublishEffect(cfg: Config, c: S.Ring, p: nat, t: nat, used: nat)
    requires S.Shape(cfg, c) && p < |c.prods| && t < |c.slots| && c.prods[p].pc == Sealed(t, used, 0, true)
    ensures S.Enabled(cfg, c, PublishFinal(p))
    ensures S.Next(cfg, c, PublishFinal(p)) ==
      c.(slots := c.slots[t := c.slots[t].(size := used)], prods := c.prods[p := c.prods[p].(pc := Idle)])
  {
  }

  lemma SignalRun(cfg: Config, c: S.Ring, p: nat, t: nat, ts: nat, k: nat)
    requires S.Shape(cfg, c) && p < |c.prods| && c.prods[p].pc == Fresh(t) && t < |c.slots|
    requires k == c.slots[t].offset < |c.pool|
    ensures S.Legal(cfg, c, SignalSteps(p, ts))
    ensures S.Exec(cfg, c, SignalSteps(p, ts)) ==
      c.(slots := c.slots[t := c.slots[t].(isFinal := true, size := 1)],
         pool := c.pool[k := Meta(ts, 0, c.pool[k].body)],
         prods := c.prods[p := c.prods[p].(pc := Idle)])
  {
    SignalEffect(cfg, c, p, t, ts, k);
    var acts, c1 := Extend(cfg, c, [], SignalMeta(p, ts));
    SealEffect(cfg, c1, p, t, 1);
    var acts2, c2 := Extend(cfg, c, acts, SetFinal(p));
    PublishEffect(cfg, c2, p, t, 1);
    var acts3, c3 := Extend(cfg, c, acts2, PublishFinal(p));
    assert acts3 == SignalSteps(p, ts);
  }

  lemma WriteEffect(cfg: Config, c: S.Ring, act: Action, k: nat)
    requires S.Shape(cfg, c) && S.Enabled(cfg, c, act) && act.WriteMeta?
    requires k == c.mods[act.id].handed[act.j].offset + act.idx < |c.pool|
    ensures S.Next(cfg, c, act) == c.(pool := c.pool[k := c.pool[k].(body := act.body)])
  {
  }

  /** Picking one block. */
  lemma PickEffect(cfg: Config, c: S.Ring, id: nat, m: S.Module)
    requires S.Shape(cfg, c) && id < |c.mods| && m.left > 0 && m.pick < |c.slots| && c.slots[m.pick].size != 0
    ensures S.Enabled(cfg, S.SetMod(c, id, m), Probe(id, true))
    ensures S.Next(cfg, S.SetMod(c, id, m), Probe(id, true)) ==
      S.SetMod(c, id, m.(pending := m.pending + [m.pick], pick := (m.pick + 1) % cfg.blkCount, left := m.left - 1))
  {
  }

  /** Stopping at a block that is not ready. */
  lemma StopEffect(cfg: Config, c: S.Ring, id: nat, m: S.Module)
    requires S.Shape(cfg, c) && id < |c.mods| && m.left > 0 && m.pick < |c.slots| && c.slots[m.pick].size == 0
    ensures S.Enabled(cfg, S.SetMod(c, id, m), Probe(id, false))
    ensures S.Next(cfg, S.SetMod(c, id, m), Probe(id, false)) == S.SetMod(c, id, m.(left := 0))
  {
  }

  /** The steps of a scan: the limit is read, then blocks are probed. */
  ghost predicate ScanSteps(acts: seq<Action>, id: nat) {
    && |acts| >= 1 && acts[0] == ScanLimit(id)
    && forall i :: 1 <= i < |acts| ==> acts[i].Probe? && acts[i].id == id
  }

  /** The positions from `index` on, all of published blocks. */
  ghost predicate ReadyRun(cfg: Config, slots: seq<Slot>, index: nat, picks: seq<nat>)
    requires cfg.blkCount > 0
  {
    forall i :: 0 <= i < |picks| ==>
      picks[i] == Wrap(index + i, cfg.blkCount) && picks[i] < |slots| && slots[picks[i]].size != 0
  }

  lemma LongerRun(cfg: Config, slots: seq<Slot>, index: nat, picks: seq<nat>, pos: nat)
    requires cfg.blkCount > 0 && ReadyRun(cfg, slots, index, picks)
    requires pos == Wrap(index + |picks|, cfg.blkCount) && pos < |slots| && slots[pos].size != 0
    ensures ReadyRun(cfg, slots, index, picks + [pos])
    ensures (pos + 1) % cfg.blkCount == Wrap(index + |picks + [pos]|, cfg.blkCount)
  {
    NextPosition(index + |picks|, cfg.blkCount);
  }

  /** The start of a scan. */
  lemma Started(cfg: Config, c: S.Ring, id: nat, distance: nat) returns (acts: seq<Action>, cc: S.Ring)
    requires S.Shape(cfg, c) && id < |c.mods| && c.mods[id].left == 0 && c.mods[id].pending == []
    requires distance == S.ScanDistance(cfg, c.mods[id].pick, S.LimPtr(cfg, c, id))
    ensures ScanSteps(acts, id) && S.Legal(cfg, c, acts) && cc == S.Exec(cfg, c, acts)
    ensures cc == S.SetMod(c, id, c.mods[id].(left := distance))
  {
    acts, cc := Extend(cfg, c, [], ScanLimit(id));
  }

  /** Going on with a scan after which the module is `m`, at a block that is ready, */
  lemma Picked(cfg: Config, c: S.Ring, id: nat, m: S.Module, acts: seq<Action>)
    returns (acts': seq<Action>, cc': S.Ring)
    requires S.Shape(cfg, c) && id < |c.mods| && m.left > 0 && m.pick < |c.slots| && c.slots[m.pick].size != 0
    requires ScanSteps(acts, id) && S.Legal(cfg, c, acts) && S.Exec(cfg, c, acts) == S.SetMod(c, id, m)
    ensures ScanSteps(acts', id) && S.Legal(cfg, c, acts') && cc' == S.Exec(cfg, c, acts')
    ensures cc' ==
      S.SetMod(c, id, m.(pending := m.pending + [m.pick], pick := (m.pick + 1) % cfg.blkCount, left := m.left - 1))
  {
    PickEffect(cfg, c, id, m);
    acts', cc' := Extend(cfg, c, acts, Probe(id, true));
  }

  /** and at one that is not. */
  lemma Stopped(cfg: Config, c: S.Ring, id: nat, m: S.Module, acts: seq<Action>)
    returns (acts': seq<Action>, cc': S.Ring)
    requires S.Shape(cfg, c) && id < |c.mods| && m.left > 0 && m.pick < |c.slots| && c.slots[m.pick].size == 0
    requires ScanSteps(acts, id) && S.Legal(cfg, c, acts) && S.Exec(cfg, c, acts) == S.SetMod(c, id, m)
    ensures ScanSteps(acts', id) && S.Legal(cfg, c, acts') && cc' == S.Exec(cfg, c, acts')
    ensures cc' == S.SetMod(c, id, m.(left := 0))
  {
    StopEffect(cfg, c, id, m);
    acts', cc' := Extend(cfg, c, acts, Probe(id, false));
  }

  // -------------------------------------------------------------- safe runs

  lemma {:induction false} NoClaimSafe(cfg: Config, c: S.Ring, acts: seq<Action>)
    requires S.Shape(cfg, c) && S.Legal(cfg, c, acts) && forall i :: 0 <= i < |acts| ==> !acts[i].Cas?
    ensures S.SafeRun(cfg, c, acts)
    decreases |acts|
  {
    if acts != [] {
      NoClaimSafe(cfg, S.Next(cfg, c, acts[0]), acts[1..]);
    }
  }

  /** A safe run stays safe when it goes on without a claim. */
  lemma {:induction false} SafeThenQuiet(cfg: Config, c: S.Ring, acts: seq<Action>, more: seq<Action>, all: seq<Action>)
    requires S.Shape(cfg, c) && S.Legal(cfg, c, acts) && S.SafeRun(cfg, c, acts)
    requires all == acts + more && S.Legal(cfg, c, all) && forall i :: 0 <= i < |more| ==> !more[i].Cas?
    ensures S.SafeRun(cfg, c, all)
    decreases |acts|
  {
    if acts == [] {
      assert all == more;
      NoClaimSafe(cfg, c, all);
    } else {
      assert all[0] == acts[0] && all[1..] == acts[1..] + more;
      SafeThenQuiet(cfg, S.Next(cfg, c, acts[0]), acts[1..], more, all[1..]);
    }
  }

  /** An undisturbed claim is safe. */
  lemma ClaimStepsSafe(cfg: Config, c: S.Ring, p: nat)
    requires S.Shape(cfg, c) && p < |c.prods| && c.prods[p].pc.Idle? && c.tail < cfg.blkCount
    requires (c.tail + 2) % cfg.blkCount != c.mods[0].blkPtr && c.slots[c.tail].size == 0
    ensures S.Legal(cfg, c, ClaimSteps(p)) && S.SafeRun(cfg, c, ClaimSteps(p))
  {
    ReadsRun(cfg, c, p);
    ClaimRuns(cfg, c, p);
    var firstThree := ClaimSteps(p)[..3];
    NoClaimSafe(cfg, c, firstThree);
    var mid := c.(prods := c.prods[p := S.Producer(SizeOk(c.tail), c.claims)]);
    LegalAppend(cfg, c, firstThree, Cas(p, true));
    assert firstThree + [Cas(p, true)] == ClaimSteps(p);
  }
}
