/** Every step of the specification keeps its invariant. */
module RingLogInvariant {
  import opened RingTypes
  import opened RingLog

  lemma ReadStep(cfg: Config, a: Log, act: Action)
    requires Shape(cfg, a) && cfg.blkCount > 0 && Enabled(cfg, a, act)
    requires act.ReadTail? || act.ReadLimit? || act.ReadSize? || (act.Cas? && !act.ok)
    requires WriterOk(cfg, a, act.p)
    ensures var a' := Next(cfg, a, act);
      a' == a.(writers := a.writers[act.p := a'.writers[act.p]]) && WriterOk(cfg, a', act.p) &&
        !a'.writers[act.p].pc.Holds()
    ensures !a.writers[act.p].pc.Holds()
  {
  }

  lemma KeepReads(cfg: Config, a: Log, act: Action)
    requires Inv(cfg, a) && Enabled(cfg, a, act)
    requires act.ReadTail? || act.ReadLimit? || act.ReadSize? || (act.Cas? && !act.ok)
    ensures Inv(cfg, Next(cfg, a, act))
  {
    var a' := Next(cfg, a, act);
    assert WriterOk(cfg, a, act.p);
    ReadStep(cfg, a, act);
    forall p | 0 <= p < |a'.writers| ensures WriterOk(cfg, a', p) {
      assert WriterOk(cfg, a, p);
    }
    forall x | 0 <= x < |a'.entries| ensures EntryOk(cfg, a', x) {
      assert EntryOk(cfg, a, x);
    }
    forall id | 0 <= id < cfg.modCount ensures CursorOk(cfg, a', id) {
      assert CursorOk(cfg, a, id);
    }
  }

  lemma KeepClaim(cfg: Config, a: Log, p: nat)
    requires Inv(cfg, a) && Enabled(cfg, a, Cas(p, true))
    ensures Inv(cfg, Next(cfg, a, Cas(p, true)))
  {
    var a' := Next(cfg, a, Cas(p, true));
    assert WriterOk(cfg, a, p);
    forall q | 0 <= q < |a'.writers| ensures WriterOk(cfg, a', q) {
      assert WriterOk(cfg, a, q);
    }
    forall x | 0 <= x < |a'.entries| ensures EntryOk(cfg, a', x) {
      if x < |a.entries| {
        assert EntryOk(cfg, a, x);
      }
    }
    forall id | 0 <= id < cfg.modCount ensures CursorOk(cfg, a', id) {
      assert CursorOk(cfg, a, id);
    }
  }

  /** The entry a producer works on and the producer itself are as they should be after the step, and nothing else
      changes. */
  lemma FillingStep(cfg: Config, a: Log, act: Action, t: nat)
    requires Shape(cfg, a) && cfg.blkCount > 0 && Enabled(cfg, a, act) && IsFilling(act) && t == a.writers[act.p].pc.t
    requires WriterOk(cfg, a, act.p) && EntryOk(cfg, a, t)
    ensures WriterOk(cfg, Next(cfg, a, act), act.p) && EntryOk(cfg, Next(cfg, a, act), t)
    ensures OnlyHeld(a, Next(cfg, a, act), act.p, t)
  {
  }

  /** Two logs differ at most in producer `p` and in entry `t`, which it held in the first. */
  ghost predicate OnlyHeld(a: Log, a': Log, p: nat, t: nat) {
    && p < |a.writers| == |a'.writers| && t < |a.entries| == |a'.entries|
    && a' == a.(entries := a.entries[t := a'.entries[t]], writers := a.writers[p := a'.writers[p]])
    && a.writers[p].pc.Holds() && a.writers[p].pc.t == t && a.entries[t].stage == Open && a.entries[t].owner == p
  }

  lemma KeepFilling(cfg: Config, a: Log, act: Action)
    requires Inv(cfg, a) && Enabled(cfg, a, act) && IsFilling(act)
    ensures Inv(cfg, Next(cfg, a, act))
  {
    var t := a.writers[act.p].pc.t;
    assert WriterOk(cfg, a, act.p) && EntryOk(cfg, a, t);
    FillingStep(cfg, a, act, t);
    AroundHeld(cfg, a, Next(cfg, a, act), act.p, t);
  }

  lemma AroundHeld(cfg: Config, a: Log, a': Log, p: nat, t: nat)
    requires Inv(cfg, a) && Shape(cfg, a') && OnlyHeld(a, a', p, t)
    requires WriterOk(cfg, a', p) && EntryOk(cfg, a', t)
    ensures Inv(cfg, a')
  {
    forall q | 0 <= q < |a'.writers| ensures WriterOk(cfg, a', q) {
      assert WriterOk(cfg, a, q);
    }
    forall x | 0 <= x < |a'.entries| ensures EntryOk(cfg, a', x) {
      assert EntryOk(cfg, a, x);
    }
    forall id | 0 <= id < cfg.modCount ensures CursorOk(cfg, a', id) {
      assert CursorOk(cfg, a, id);
    }
  }

  /** Freeing a published entry, or writing a body in it, changes nothing else. */
  lemma PublishedStep(cfg: Config, a: Log, act: Action)
    requires Shape(cfg, a) && cfg.blkCount > 0 && Enabled(cfg, a, act)
    requires act.ClearFinal? || act.ClearData? || act.ClearSize? || act.WriteMeta?
    requires act.j < |a.entries| && EntryOk(cfg, a, act.j) && a.entries[act.j].stage != Open
    ensures EntryOk(cfg, Next(cfg, a, act), act.j) && OnlyPublished(a, Next(cfg, a, act), act.j)
  {
  }

  /** Two logs differ at most in entry `t`, which is published in both, and which stays freed if it was. */
  ghost predicate OnlyPublished(a: Log, a': Log, t: nat) {
    && t < |a.entries| == |a'.entries| && a' == a.(entries := a.entries[t := a'.entries[t]])
    && a.entries[t].stage != Open && a'.entries[t].stage != Open
    && (a.entries[t].stage == Freed ==> a'.entries[t].stage == Freed)
  }

  lemma AroundPublished(cfg: Config, a: Log, a': Log, t: nat)
    requires Inv(cfg, a) && Shape(cfg, a') && OnlyPublished(a, a', t) && EntryOk(cfg, a', t)
    ensures Inv(cfg, a')
  {
    forall q | 0 <= q < |a'.writers| ensures WriterOk(cfg, a', q) {
      assert WriterOk(cfg, a, q);
    }
    forall x | 0 <= x < |a'.entries| ensures EntryOk(cfg, a', x) {
      assert EntryOk(cfg, a, x);
    }
    forall id | 0 <= id < cfg.modCount ensures CursorOk(cfg, a', id) {
      assert CursorOk(cfg, a, id);
    }
  }

  lemma KeepPublished(cfg: Config, a: Log, act: Action)
    requires Inv(cfg, a) && Enabled(cfg, a, act)
    requires act.ClearFinal? || act.ClearData? || act.ClearSize? || act.WriteMeta?
    ensures Inv(cfg, Next(cfg, a, act))
  {
    if act.WriteMeta? {
      assert CursorOk(cfg, a, act.id);
    }
    assert EntryOk(cfg, a, act.j);
    PublishedStep(cfg, a, act);
    AroundPublished(cfg, a, Next(cfg, a, act), act.j);
  }

  lemma KeepModuleCursors(cfg: Config, a: Log, act: Action)
    requires Inv(cfg, a) && Enabled(cfg, a, act)
    requires act.ScanLimit? || act.Probe? || act.HandOver? || act.Move?
    ensures forall id :: 0 <= id < cfg.modCount ==> CursorOk(cfg, Next(cfg, a, act), id)
  {
    var a' := Next(cfg, a, act);
    ChainBounds(cfg, a, act.id);
    forall id | 0 <= id < cfg.modCount ensures CursorOk(cfg, a', id) {
      assert CursorOk(cfg, a, id);
    }
  }

  lemma KeepModule(cfg: Config, a: Log, act: Action)
    requires Inv(cfg, a) && Enabled(cfg, a, act)
    requires act.ScanLimit? || act.Probe? || act.HandOver? || act.Move?
    ensures Inv(cfg, Next(cfg, a, act))
  {
    var a' := Next(cfg, a, act);
    assert a'.entries == a.entries && a'.writers == a.writers;
    assert a.cursors[0].moved <= a'.cursors[0].moved && a.cursors[0].handed <= a'.cursors[0].handed;
    forall q | 0 <= q < |a'.writers| ensures WriterOk(cfg, a', q) {
      assert WriterOk(cfg, a, q);
    }
    forall x | 0 <= x < |a'.entries| ensures EntryOk(cfg, a', x) {
      assert EntryOk(cfg, a, x);
    }
    KeepModuleCursors(cfg, a, act);
  }

  lemma KeepInv(cfg: Config, a: Log, act: Action)
    requires Inv(cfg, a) && Enabled(cfg, a, act)
    ensures Inv(cfg, Next(cfg, a, act))
  {
    if IsFilling(act) {
      KeepFilling(cfg, a, act);
    } else if act.Cas? && act.ok {
      KeepClaim(cfg, a, act.p);
    } else if act.ReadTail? || act.ReadLimit? || act.ReadSize? || act.Cas? {
      KeepReads(cfg, a, act);
    } else if act.ClearFinal? || act.ClearData? || act.ClearSize? || act.WriteMeta? {
      KeepPublished(cfg, a, act);
    } else {
      KeepModule(cfg, a, act);
    }
  }
}
