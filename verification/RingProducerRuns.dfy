/** How a producer's calls to `GetMeta4PktBlk` and `FinalMetaBlk` come out as published blocks. */
module RingProducerRuns {
  import opened RingTypes
  import opened RingRefinement
  import opened RingTheorems
  import S = RingSteps
  import L = RingLog
  import I = RingLogInvariant

  function Repeat(d: nat, n: nat): (r: seq<nat>)
    ensures |r| == n
  {
    seq(n, _ => d)
  }

  /** The data blocks of the metas in the entries `batch`, one item a meta. */
  ghost function Expand(entries: seq<L.Entry>, batch: seq<nat>): seq<nat>
    requires forall i :: 0 <= i < |batch| ==> batch[i] < |entries|
  {
    if batch == [] then []
    else
      var x := batch[|batch| - 1];
      Expand(entries, batch[..|batch| - 1]) + Repeat(entries[x].dataBlk, entries[x].size)
  }

  /** The metas taken for a data block that are not published yet. */
  function InHand(pc: Pc): seq<nat> {
    if (pc.Filling? || pc.Sealed?) && !pc.signal then Repeat(pc.data, pc.used) else []
  }

  /** Since it last finalised, the producer has published the blocks `batch`, in the order it claimed
      them and none of them final, and the metas in them and in hand are the calls it made. */
  ghost predicate BatchOk(a: L.Log, p: nat)
    requires p < |a.writers|
  {
    var w := a.writers[p];
    && (forall i :: 0 <= i < |w.batch| ==> w.batch[i] < |a.entries|)
    && (forall i :: 0 <= i < |w.batch| ==> var e := a.entries[w.batch[i]];
          e.stage != L.Open && !e.isFinal && !e.signal && e.owner == p && e.size >= 1)
    && (forall i, j :: 0 <= i < j < |w.batch| ==> w.batch[i] < w.batch[j])
    && (w.pc.Holds() ==> forall i :: 0 <= i < |w.batch| ==> w.batch[i] < w.pc.t)
    && w.calls == Expand(a.entries, w.batch) + InHand(w.pc)
  }

  /** Once published, an entry never changes except for the stage of its freeing, and for a body when a module
      that has the block writes it. */
  lemma PublishedStable(cfg: Config, a: L.Log, act: Action, x: nat)
    requires L.Inv(cfg, a) && L.Enabled(cfg, a, act)
    requires x < |a.entries| && a.entries[x].stage != L.Open
    ensures x < |L.Next(cfg, a, act).entries|
    ensures var e, e' := a.entries[x], L.Next(cfg, a, act).entries[x];
      && e' == e.(stage := e'.stage, written := e'.written) && e'.stage != L.Open
      && (e'.written == e.written ||
          (act.WriteMeta? && act.j == x && L.Has(a, act.id, x) && e'.written == e.written[act.idx := act.body]))
  {
    if L.IsFilling(act) {
      HeldApart(cfg, a, act, x);
    } else if act.ReadTail? || act.ReadLimit? || act.ReadSize? || act.Cas? {
      ClaimsKeepEntries(cfg, a, act);
    } else if act.ScanLimit? || act.Probe? || act.HandOver? || act.Move? {
      ModulesKeepEntries(cfg, a, act);
    } else {
      OneEntry(cfg, a, act, x);
    }
  }

  /** A producer works on the entry it holds, which is not published. */
  lemma HeldApart(cfg: Config, a: L.Log, act: Action, x: nat)
    requires L.Inv(cfg, a) && L.Enabled(cfg, a, act) && L.IsFilling(act)
    requires x < |a.entries| && a.entries[x].stage != L.Open
    ensures |L.Next(cfg, a, act).entries| == |a.entries| && L.Next(cfg, a, act).entries[x] == a.entries[x]
  {
    assert L.WriterOk(cfg, a, act.p);
    assert x != a.writers[act.p].pc.t;
  }

  lemma ClaimsKeepEntries(cfg: Config, a: L.Log, act: Action)
    requires L.Shape(cfg, a) && cfg.blkCount > 0 && L.Enabled(cfg, a, act)
    requires act.ReadTail? || act.ReadLimit? || act.ReadSize? || act.Cas?
    ensures a.entries <= L.Next(cfg, a, act).entries
  {
  }

  lemma ModulesKeepEntries(cfg: Config, a: L.Log, act: Action)
    requires L.Shape(cfg, a) && cfg.blkCount > 0 && L.Enabled(cfg, a, act)
    requires act.ScanLimit? || act.Probe? || act.HandOver? || act.Move?
    ensures L.Next(cfg, a, act).entries == a.entries
  {
  }

  lemma OneEntry(cfg: Config, a: L.Log, act: Action, x: nat)
    requires L.Shape(cfg, a) && cfg.blkCount > 0 && L.Enabled(cfg, a, act)
    requires act.ClearFinal? || act.ClearData? || act.ClearSize? || act.WriteMeta?
    requires x < |a.entries| && a.entries[x].stage != L.Open
    ensures |L.Next(cfg, a, act).entries| == |a.entries|
    ensures var e, e' := a.entries[x], L.Next(cfg, a, act).entries[x];
      && e' == e.(stage := e'.stage, written := e'.written) && e'.stage != L.Open
      && (e'.written == e.written ||
          (act.WriteMeta? && act.j == x && L.Has(a, act.id, x) && e'.written == e.written[act.idx := act.body]))
  {
  }

  lemma {:induction false} ExpandStable(entries: seq<L.Entry>, entries': seq<L.Entry>, batch: seq<nat>)
    requires forall i :: 0 <= i < |batch| ==> batch[i] < |entries| && batch[i] < |entries'|
    requires forall i :: 0 <= i < |batch| ==>
      entries'[batch[i]].dataBlk == entries[batch[i]].dataBlk && entries'[batch[i]].size == entries[batch[i]].size
    ensures Expand(entries', batch) == Expand(entries, batch)
  {
    if batch != [] {
      ExpandStable(entries, entries', batch[..|batch| - 1]);
    }
  }

  lemma ExpandAppend(entries: seq<L.Entry>, batch: seq<nat>, x: nat)
    requires forall i :: 0 <= i < |batch| ==> batch[i] < |entries|
    requires x < |entries|
    ensures Expand(entries, batch + [x]) == Expand(entries, batch) + Repeat(entries[x].dataBlk, entries[x].size)
  {
    assert (batch + [x])[..|batch|] == batch;
  }

  /** A step after which the published entries of the batch, the calls and the metas in hand are the
      same keeps the batch. */
  lemma BatchFrame(cfg: Config, a: L.Log, act: Action, p: nat)
    requires L.Inv(cfg, a) && L.Enabled(cfg, a, act) && p < |a.writers| && BatchOk(a, p)
    requires var w, w' := a.writers[p], L.Next(cfg, a, act).writers[p];
      && w'.batch == w.batch && w'.calls == w.calls && InHand(w'.pc) == InHand(w.pc)
      && (w'.pc.Holds() ==> w'.pc.t >= |a.entries| || (w.pc.Holds() && w.pc.t == w'.pc.t))
    ensures BatchOk(L.Next(cfg, a, act), p)
  {
    var a', batch := L.Next(cfg, a, act), a.writers[p].batch;
    forall i | 0 <= i < |batch|
      ensures batch[i] < |a'.entries| && var e' := a'.entries[batch[i]];
        e' == a.entries[batch[i]].(stage := e'.stage, written := e'.written) && e'.stage != L.Open
    {
      PublishedStable(cfg, a, act, batch[i]);
    }
    ExpandStable(a.entries, a'.entries, batch);
  }

  lemma KeepTake(cfg: Config, a: L.Log, p: nat, data: nat)
    requires L.Inv(cfg, a) && L.Enabled(cfg, a, TakeMeta(p, data)) && BatchOk(a, p)
    ensures BatchOk(L.Next(cfg, a, TakeMeta(p, data)), p)
  {
    var a', w := L.Next(cfg, a, TakeMeta(p, data)), a.writers[p];
    assert a'.entries == a.entries;
    assert Repeat(w.pc.data, w.pc.used) + [data] == Repeat(w.pc.data, w.pc.used + 1);
    assert w.calls + [data] == Expand(a.entries, w.batch) + (Repeat(w.pc.data, w.pc.used) + [data]);
  }

  lemma KeepPublish(cfg: Config, a: L.Log, p: nat)
    requires L.Inv(cfg, a) && L.Enabled(cfg, a, PublishFull(p)) && BatchOk(a, p)
    ensures BatchOk(L.Next(cfg, a, PublishFull(p)), p)
  {
    assert L.WriterOk(cfg, a, p);
    PublishStep(cfg, a, p);
  }

  /** What publishing does to a full block and its producer. */
  lemma PublishEffect(cfg: Config, a: L.Log, p: nat)
    requires L.Shape(cfg, a) && cfg.blkCount > 0 && L.Enabled(cfg, a, PublishFull(p)) && L.WriterOk(cfg, a, p)
    ensures var a', w := L.Next(cfg, a, PublishFull(p)), a.writers[p];
      && w.pc.Filling? && !w.pc.signal && w.pc.used >= 1 && L.HeldOk(cfg, a.entries[w.pc.t], p, w.pc)
      && a'.entries == a.entries[w.pc.t := a.entries[w.pc.t].(size := w.pc.used, stage := L.Full)]
      && a'.writers == a.writers[p := w.(pc := Idle, batch := w.batch + [w.pc.t])]
  {
  }

  lemma PublishStep(cfg: Config, a: L.Log, p: nat)
    requires L.Shape(cfg, a) && cfg.blkCount > 0 && L.Enabled(cfg, a, PublishFull(p)) && L.WriterOk(cfg, a, p)
    requires BatchOk(a, p)
    ensures BatchOk(L.Next(cfg, a, PublishFull(p)), p)
  {
    PublishEffect(cfg, a, p);
    var w := a.writers[p];
    PublishKeeps(a, L.Next(cfg, a, PublishFull(p)), p, w.pc, a.entries[w.pc.t].(size := w.pc.used, stage := L.Full));
  }

  lemma PublishKeeps(a: L.Log, a': L.Log, p: nat, pc: Pc, e: L.Entry)
    requires p < |a.writers| && BatchOk(a, p) && a.writers[p].pc == pc && pc.Filling? && pc.t < |a.entries|
    requires !pc.signal && e.dataBlk == pc.data && e.size == pc.used >= 1
    requires e.stage == L.Full && !e.isFinal && !e.signal && e.owner == p
    requires a'.entries == a.entries[pc.t := e]
    requires a'.writers == a.writers[p := a.writers[p].(pc := Idle, batch := a.writers[p].batch + [pc.t])]
    ensures BatchOk(a', p)
  {
    PublishedBatch(a.entries, a.writers[p].batch, pc.t, e);
  }

  /** Publishing a block in hand moves its metas from the hand to the batch. */
  lemma PublishedBatch(entries: seq<L.Entry>, batch: seq<nat>, t: nat, e: L.Entry)
    requires t < |entries| && forall i :: 0 <= i < |batch| ==> batch[i] < |entries| && batch[i] != t
    ensures Expand(entries[t := e], batch) == Expand(entries, batch)
    ensures Expand(entries[t := e], batch + [t]) == Expand(entries, batch) + Repeat(e.dataBlk, e.size)
  {
    ExpandStable(entries, entries[t := e], batch);
    ExpandAppend(entries[t := e], batch, t);
  }

  lemma KeepFinal(cfg: Config, a: L.Log, p: nat)
    requires L.Inv(cfg, a) && L.Enabled(cfg, a, PublishFinal(p)) && BatchOk(a, p)
    ensures BatchOk(L.Next(cfg, a, PublishFinal(p)), p)
  {
    if a.writers[p].pc.signal {
      BatchFrame(cfg, a, PublishFinal(p), p);
    }
  }

  lemma KeepBatch(cfg: Config, a: L.Log, act: Action, p: nat)
    requires L.Inv(cfg, a) && L.Enabled(cfg, a, act) && p < |a.writers| && BatchOk(a, p)
    ensures BatchOk(L.Next(cfg, a, act), p)
  {
    if act.TakeMeta? && act.p == p {
      KeepTake(cfg, a, p, act.data);
    } else if act.PublishFull? && act.p == p {
      KeepPublish(cfg, a, p);
    } else if act.PublishFinal? && act.p == p {
      KeepFinal(cfg, a, p);
    } else {
      HandsUnchanged(cfg, a, act, p);
      BatchFrame(cfg, a, act, p);
    }
  }

  /** Every other step leaves the batch, the calls and the metas in hand alone. */
  lemma HandsUnchanged(cfg: Config, a: L.Log, act: Action, p: nat)
    requires L.Inv(cfg, a) && L.Enabled(cfg, a, act) && p < |a.writers|
    requires !((act.TakeMeta? || act.PublishFull? || act.PublishFinal?) && act.p == p)
    ensures var w, w' := a.writers[p], L.Next(cfg, a, act).writers[p];
      && w'.batch == w.batch && w'.calls == w.calls && InHand(w'.pc) == InHand(w.pc)
      && (w'.pc.Holds() ==> w'.pc.t >= |a.entries| || (w.pc.Holds() && w.pc.t == w'.pc.t))
  {
    assert L.WriterOk(cfg, a, p);
  }

  lemma {:induction false} RunKeepsBatch(cfg: Config, a: L.Log, acts: seq<Action>, a': L.Log, p: nat)
    requires L.Inv(cfg, a) && LogRun(cfg, a, acts, a') && p < |a.writers| && BatchOk(a, p)
    ensures L.Inv(cfg, a') && p < |a'.writers| && BatchOk(a', p)
    decreases |acts|
  {
    if acts != [] {
      I.KeepInv(cfg, a, acts[0]);
      KeepBatch(cfg, a, acts[0], p);
      RunKeepsBatch(cfg, L.Next(cfg, a, acts[0]), acts[1..], a', p);
    }
  }

  lemma BatchOfRun(cfg: Config, c: S.Ring, a: L.Log, p: nat)
    requires Usable(cfg) && Behind(cfg, c, a) && p < |a.writers|
    ensures L.Inv(cfg, a) && BatchOk(a, p)
  {
    var c0, acts :| S.Init(cfg, c0) && S.Legal(cfg, c0, acts) && S.SafeRun(cfg, c0, acts) && S.Exec(cfg, c0, acts) == c
                    && LogRun(cfg, L.InitLog(cfg, |c0.prods|), acts, a);
    BatchFromStart(cfg, |c0.prods|, acts, a, p);
  }

  lemma BatchFromStart(cfg: Config, producers: nat, acts: seq<Action>, a: L.Log, p: nat)
    requires Usable(cfg) && LogRun(cfg, L.InitLog(cfg, producers), acts, a) && p < |a.writers|
    ensures L.Inv(cfg, a) && BatchOk(a, p)
  {
    L.InitInv(cfg, producers);
    RunWriters(cfg, L.InitLog(cfg, producers), acts, a);
    RunKeepsBatch(cfg, L.InitLog(cfg, producers), acts, a, p);
  }

  lemma {:induction false} RunWriters(cfg: Config, a: L.Log, acts: seq<Action>, a': L.Log)
    requires L.Shape(cfg, a) && cfg.blkCount > 0 && LogRun(cfg, a, acts, a')
    ensures |a'.writers| == |a.writers|
    decreases |acts|
  {
    if acts != [] {
      RunWriters(cfg, L.Next(cfg, a, acts[0]), acts[1..], a');
    }
  }

  function Sum(sizes: seq<nat>): nat {
    if sizes == [] then 0 else Sum(sizes[..|sizes| - 1]) + sizes[|sizes| - 1]
  }

  ghost function Sizes(entries: seq<L.Entry>, batch: seq<nat>): seq<nat>
    requires forall i :: 0 <= i < |batch| ==> batch[i] < |entries|
  {
    seq(|batch|, i requires 0 <= i < |batch| => entries[batch[i]].size)
  }

  lemma {:induction false} ExpandLength(entries: seq<L.Entry>, batch: seq<nat>)
    requires forall i :: 0 <= i < |batch| ==> batch[i] < |entries|
    ensures |Expand(entries, batch)| == Sum(Sizes(entries, batch))
  {
    if batch != [] {
      ExpandLength(entries, batch[..|batch| - 1]);
      assert Sizes(entries, batch)[..|batch| - 1] == Sizes(entries, batch[..|batch| - 1]);
    }
  }

  /** The producer run law. When `FinalMetaBlk` publishes, the blocks that the producer has published
      since it last finalised, with this one, hold one meta for each call it made since then, in order
      and under the data block of the call; each holds at least one, their sizes add up to the number
      of calls, and this last one alone is final. */
  lemma FinalClosesRun(cfg: Config, c: S.Ring, a: L.Log, p: nat)
    requires Usable(cfg) && Behind(cfg, c, a)
    requires L.Shape(cfg, a) && L.Enabled(cfg, a, PublishFinal(p)) && !a.writers[p].pc.signal
    ensures var w := a.writers[p];
      ClosedRun(L.Next(cfg, a, PublishFinal(p)).entries, w.batch + [w.pc.t], p, w.calls)
  {
    BatchOfRun(cfg, c, a, p);
    CloseBatch(cfg, a, p);
  }

  /** The entries `blocks`, in the order of their claims, hold the metas of the calls `calls` of producer `p`. */
  ghost predicate ClosedRun(entries: seq<L.Entry>, blocks: seq<nat>, p: nat, calls: seq<nat>) {
    && (forall i :: 0 <= i < |blocks| ==> blocks[i] < |entries|)
    && (forall i :: 0 <= i < |blocks| ==> var e := entries[blocks[i]];
          e.owner == p && e.stage != L.Open && e.size >= 1 && (e.isFinal <==> i == |blocks| - 1))
    && (forall i, j :: 0 <= i < j < |blocks| ==> blocks[i] < blocks[j])
    && Expand(entries, blocks) == calls
    && Sum(Sizes(entries, blocks)) == |calls|
  }

  lemma CloseBatch(cfg: Config, a: L.Log, p: nat)
    requires L.Inv(cfg, a) && L.Enabled(cfg, a, PublishFinal(p)) && !a.writers[p].pc.signal && BatchOk(a, p)
    ensures var w := a.writers[p];
      ClosedRun(L.Next(cfg, a, PublishFinal(p)).entries, w.batch + [w.pc.t], p, w.calls)
  {
    var w, a' := a.writers[p], L.Next(cfg, a, PublishFinal(p));
    assert L.WriterOk(cfg, a, p);
    var t, e := w.pc.t, a.entries[w.pc.t].(size := w.pc.used, stage := L.Full);
    assert a'.entries == a.entries[t := e];
    PublishedBatch(a.entries, w.batch, t, e);
    ExpandLength(a'.entries, w.batch + [t]);
  }

  /** If all those calls were for one data block, so are all the blocks published for them. */
  lemma {:induction false} OneDataBlock(entries: seq<L.Entry>, blocks: seq<nat>, d: nat, i: nat)
    requires forall j :: 0 <= j < |blocks| ==> blocks[j] < |entries| && entries[blocks[j]].size >= 1
    requires forall k :: 0 <= k < |Expand(entries, blocks)| ==> Expand(entries, blocks)[k] == d
    requires i < |blocks|
    ensures entries[blocks[i]].dataBlk == d
  {
    var n := |blocks| - 1;
    var front, tail := Expand(entries, blocks[..n]), Repeat(entries[blocks[n]].dataBlk, entries[blocks[n]].size);
    assert Expand(entries, blocks) == front + tail;
    if i == n {
      assert (front + tail)[|front|] == tail[0];
    } else {
      forall k | 0 <= k < |front| ensures front[k] == d {
        assert (front + tail)[k] == front[k];
      }
      OneDataBlock(entries, blocks[..n], d, i);
    }
  }
}
