/** Where the hypotheses of the ring theorems are needed: a claim lapped between the read of the tail and
    the compare-and-swap, and a ring of fewer than three blocks. */
module RingLimits {
  import opened RingTypes
  import opened Modular
  import opened RingRefinement
  import opened RingTheorems
  import opened RingRuns
  import S = RingSteps
  import L = RingLog

  // ------------------------------------------------------- lapped claims

  /** Some run, lapped or not, leads from a started ring to `c`. */
  ghost predicate ReachableLapped(cfg: Config, c: S.Ring) {
    exists c0, acts :: S.Init(cfg, c0) && S.Legal(cfg, c0, acts) && S.Exec(cfg, c0, acts) == c
  }

  /** The run `run` leads from `c0` to `c`. */
  ghost predicate Ran(cfg: Config, c0: S.Ring, run: seq<Action>, c: S.Ring) {
    S.Shape(cfg, c0) && S.Shape(cfg, c) && S.Legal(cfg, c0, run) && S.Exec(cfg, c0, run) == c
  }

  /** A claim is safe, that is, it keeps the distance and takes the slot of a block that was freed, exactly when
      both checks of `GetEmptyMetaBlk` would still pass at the compare-and-swap.
      `RingTheorems.UnlappedPasses` says that they do whenever the tail was not lapped. */
  lemma ClaimSafeIff(cfg: Config, c: S.Ring, a: L.Log, p: nat)
    requires Usable(cfg) && S.Shape(cfg, c) && Behind(cfg, c, a) && S.Enabled(cfg, c, Cas(p, true))
    ensures ClaimKept(cfg, S.Next(cfg, c, Cas(p, true)), a) <==> S.ChecksPass(cfg, c)
  {
    BehindLinked(cfg, c, a);
    ClaimKeptIff(cfg, c, a, p);
  }

  /** The ring `c`, after a claim that the log `a` does not have yet, keeps the distance, and the block whose slot
      was claimed is freed. */
  ghost predicate ClaimKept(cfg: Config, c: S.Ring, a: L.Log)
    requires S.Shape(cfg, c)
  {
    var n, end := cfg.blkCount, |a.entries|;
    c.claims <= Moved(c, 0) + n - 2 && (end >= n ==> a.entries[end - n].stage == L.Freed)
  }

  lemma ClaimKeptIff(cfg: Config, c: S.Ring, a: L.Log, p: nat)
    requires Linked(cfg, c, a) && S.Enabled(cfg, c, Cas(p, true))
    ensures ClaimKept(cfg, S.Next(cfg, c, Cas(p, true)), a) <==> S.ChecksPass(cfg, c)
  {
    Counters(cfg, c, a, 0);
    ChecksIff(cfg, c, a);
    ClaimCounts(cfg, c, p);
  }

  lemma ClaimCounts(cfg: Config, c: S.Ring, p: nat)
    requires S.Shape(cfg, c) && S.Enabled(cfg, c, Cas(p, true))
    ensures S.Next(cfg, c, Cas(p, true)).claims == c.claims + 1 && S.Next(cfg, c, Cas(p, true)).mods == c.mods
  {
  }

  /** Both checks pass on the current tail exactly when a claim may be made. */
  lemma ChecksIff(cfg: Config, c: S.Ring, a: L.Log)
    requires Linked(cfg, c, a)
    ensures S.ChecksPass(cfg, c) <==> L.MayClaim(cfg, a)
  {
    LimitCheck(cfg, c, a);
    FreedIff(cfg, c, a);
  }

  /** With the distance kept, the slot at the tail reads size 0 exactly when the block that had it was freed. */
  lemma FreedIff(cfg: Config, c: S.Ring, a: L.Log)
    requires Linked(cfg, c, a)
    ensures c.tail < |c.slots|
    ensures |a.entries| + 3 <= a.cursors[0].moved + cfg.blkCount ==>
      (c.slots[c.tail].size == 0
       <==> (|a.entries| >= cfg.blkCount ==> a.entries[|a.entries| - cfg.blkCount].stage == L.Freed))
  {
    if |a.entries| + 3 <= a.cursors[0].moved + cfg.blkCount && |a.entries| >= cfg.blkCount {
      var x := |a.entries| - cfg.blkCount;
      assert Live(cfg, a, x) && Wrap(|a.entries|, cfg.blkCount) == Wrap(x, cfg.blkCount);
      assert SlotOk(cfg, c, a, x);
      if c.slots[c.tail].size == 0 {
        PreviousLapFreed(cfg, c, a);
      }
    }
  }

  /** A ring of three blocks of one meta each, with one module. */
  ghost predicate Tiny(cfg: Config) {
    cfg == Config(3, 1, 1, 3)
  }

  lemma GoOn(cfg: Config, c0: S.Ring, run: seq<Action>, c: S.Ring, acts: seq<Action>, c': S.Ring)
    requires Ran(cfg, c0, run, c) && Ran(cfg, c, acts, c')
    ensures Ran(cfg, c0, run + acts, c')
  {
    LegalConcat(cfg, c0, run, acts);
  }

  /** Producer `p` of a ring of three blocks reads the tail, the limit and the size, and finds them good. */
  lemma GoRead(cfg: Config, c: S.Ring, p: nat) returns (acts: seq<Action>, c': S.Ring)
    requires Tiny(cfg) && S.Shape(cfg, c) && p < |c.prods| && c.prods[p].pc == Idle
    requires c.tail < 3 && (c.tail + 2) % 3 != c.mods[0].blkPtr && c.slots[c.tail].size == 0
    ensures c' == c.(prods := c.prods[p := S.Producer(SizeOk(c.tail), c.claims)]) && Ran(cfg, c, acts, c')
  {
    ReadsRun(cfg, c, p);
    acts := ClaimSteps(p)[..3];
    c' := S.Exec(cfg, c, acts);
  }

  /** Producer 0 claims the block at the tail and has it placed. */
  lemma GoClaim(cfg: Config, c: S.Ring) returns (acts: seq<Action>, c': S.Ring)
    requires Tiny(cfg) && S.Shape(cfg, c) && |c.prods| > 0 && c.prods[0].pc == Idle
    requires c.tail < 3 && (c.tail + 2) % 3 != c.mods[0].blkPtr && c.slots[c.tail] == ZERO_SLOT
    ensures c' == c.(tail := (c.tail + 1) % 3, claims := c.claims + 1,
                     slots := c.slots[c.tail := Slot(0, false, c.tail, c.tail, 0)],
                     prods := c.prods[0 := S.Producer(Fresh(c.tail), c.claims)])
    ensures Ran(cfg, c, acts, c')
  {
    acts := PlacedRun(cfg, c, 0);
    c' := S.Exec(cfg, c, acts);
  }

  /** It publishes a signal in it. */
  lemma GoSignal(cfg: Config, c: S.Ring, t: nat) returns (acts: seq<Action>, c': S.Ring)
    requires Tiny(cfg) && S.Shape(cfg, c) && |c.prods| > 0 && c.prods[0].pc == Fresh(t)
    requires t < 3 && c.slots[t] == Slot(0, false, t, t, 0)
    ensures c' == c.(slots := c.slots[t := Slot(0, true, t, t, 1)], pool := c.pool[t := Meta(7, 0, c.pool[t].body)],
                     prods := c.prods[0 := c.prods[0].(pc := Idle)])
    ensures Ran(cfg, c, acts, c')
  {
    SignalRun(cfg, c, 0, t, 7, t);
    acts := SignalSteps(0, 7);
    c' := S.Exec(cfg, c, acts);
  }

  /** The ring with the one module replaced. */
  function WithModule(c: S.Ring, m: S.Module): S.Ring {
    c.(mods := [m])
  }

  lemma ScanEffect(cfg: Config, c: S.Ring, k: nat, h: seq<Slot>)
    requires Tiny(cfg) && S.Shape(cfg, c) && k < 3 && c.tail == (k + 1) % 3
    requires c.mods[0] == S.Module(k, k, 0, [], 0, h)
    ensures S.Enabled(cfg, c, ScanLimit(0))
    ensures S.Next(cfg, c, ScanLimit(0)) == WithModule(c, S.Module(k, k, 1, [], 0, h))
  {
  }

  lemma ProbeEffect(cfg: Config, c: S.Ring, k: nat, h: seq<Slot>)
    requires Tiny(cfg) && S.Shape(cfg, c) && k < 3 && c.slots[k].size != 0
    requires c.mods == [S.Module(k, k, 1, [], 0, h)]
    ensures S.Enabled(cfg, c, Probe(0, true))
    ensures S.Next(cfg, c, Probe(0, true)) == WithModule(c, S.Module(k, (k + 1) % 3, 0, [k], 0, h))
  {
    var none: seq<nat> := [];
    assert none + [k] == [k];
  }

  lemma HandEffect(cfg: Config, c: S.Ring, k: nat, h: seq<Slot>)
    requires Tiny(cfg) && S.Shape(cfg, c) && k < 3 && c.mods == [S.Module(k, (k + 1) % 3, 0, [k], 0, h)]
    ensures S.Enabled(cfg, c, HandOver(0))
    ensures S.Next(cfg, c, HandOver(0)) ==
      WithModule(c, S.Module(k, (k + 1) % 3, 0, [], 1, h + [c.slots[k]])).(frees := c.frees[|h| := Freeing(k, 0)])
  {
    var none: seq<nat> := [];
    assert [k][1..] == none;
  }

  lemma MoveEffect(cfg: Config, c: S.Ring, k: nat, h: seq<Slot>)
    requires Tiny(cfg) && S.Shape(cfg, c) && k < 3 && c.tail == (k + 1) % 3
    requires c.mods == [S.Module(k, c.tail, 0, [], 1, h)]
    ensures S.Enabled(cfg, c, Move(0, 1))
    ensures S.Next(cfg, c, Move(0, 1)) == WithModule(c, S.Module(c.tail, c.tail, 0, [], 0, h))
  {
  }

  /** Module 0 picks the one block there is, is handed it and moves past it. */
  lemma GoConsume(cfg: Config, c: S.Ring, k: nat) returns (acts: seq<Action>, c': S.Ring)
    requires Tiny(cfg) && S.Shape(cfg, c)
    requires k < 3 && c.tail == (k + 1) % 3 && c.slots[k].size != 0
    requires c.mods[0] == S.Module(k, k, 0, [], 0, c.mods[0].handed)
    ensures c' == c.(mods := [S.Module(c.tail, c.tail, 0, [], 0, c.mods[0].handed + [c.slots[k]])],
                     frees := c.frees[|c.mods[0].handed| := Freeing(k, 0)])
    ensures Ran(cfg, c, acts, c') && forall i :: 0 <= i < |acts| ==> !acts[i].Cas?
  {
    var h := c.mods[0].handed;
    ScanEffect(cfg, c, k, h);
    acts, c' := Extend(cfg, c, [], ScanLimit(0));
    ProbeEffect(cfg, c', k, h);
    acts, c' := Extend(cfg, c, acts, Probe(0, true));
    HandEffect(cfg, c', k, h);
    acts, c' := Extend(cfg, c, acts, HandOver(0));
    MoveEffect(cfg, c', k, h + [c.slots[k]]);
    acts, c' := Extend(cfg, c, acts, Move(0, 1));
  }

  /** Producer 0 claims block `k` and publishes a signal in it. */
  lemma GoPublish(cfg: Config, c: S.Ring, k: nat) returns (acts: seq<Action>, c': S.Ring)
    requires Tiny(cfg) && S.Shape(cfg, c) && |c.prods| > 0 && c.prods[0].pc == Idle
    requires k < 2 && c.tail == k && (k + 2) % 3 != c.mods[0].blkPtr && c.slots[k] == ZERO_SLOT
    ensures Ran(cfg, c, acts, c') && c'.mods == c.mods && c'.tail == k + 1 && c'.claims == c.claims + 1
    ensures c'.slots == c.slots[k := c'.slots[k]] && c'.slots[k].size == 1
    ensures |c'.prods| == |c.prods| && c'.prods == c.prods[0 := c'.prods[0]] && c'.prods[0].pc == Idle
  {
    var claim, c1 := GoClaim(cfg, c);
    var signal, c2 := GoSignal(cfg, c1, k);
    GoOn(cfg, c, claim, c1, signal, c2);
    acts, c' := claim + signal, c2;
  }

  /** Producer 0 publishes block `k`, and module 0 consumes it. */
  lemma GoRound(cfg: Config, c: S.Ring, k: nat) returns (acts: seq<Action>, c': S.Ring)
    requires Tiny(cfg) && S.Shape(cfg, c) && |c.prods| > 0 && c.prods[0].pc == Idle
    requires k < 2 && c.tail == k && c.mods[0] == S.Module(k, k, 0, [], 0, c.mods[0].handed)
    requires forall s :: k <= s < 3 ==> c.slots[s] == ZERO_SLOT
    ensures Ran(cfg, c, acts, c')
    ensures c'.tail == k + 1 && c'.claims == c.claims + 1
    ensures |c'.mods[0].handed| == |c.mods[0].handed| + 1
    ensures c'.mods[0] == S.Module(k + 1, k + 1, 0, [], 0, c'.mods[0].handed)
    ensures forall s :: k < s < 3 ==> c'.slots[s] == ZERO_SLOT
    ensures |c'.prods| == |c.prods| && c'.prods[0].pc == Idle
    ensures forall p :: 0 < p < |c.prods| ==> c'.prods[p] == c.prods[p]
  {
    var publish, c2 := GoPublish(cfg, c, k);
    var consume, c3 := GoConsume(cfg, c2, k);
    GoOn(cfg, c, publish, c2, consume, c3);
    acts, c' := publish + consume, c3;
    RoundResult(c, c2, c', k);
  }

  /** What the round comes to, read off its three parts. */
  lemma RoundResult(c: S.Ring, c2: S.Ring, c': S.Ring, k: nat)
    requires |c.slots| == |c2.slots| == 3 && k < 2 && |c2.prods| == |c.prods| > 0 && |c.mods| == 1 && c2.mods == c.mods
    requires c2.tail == k + 1 && c2.claims == c.claims + 1 && c2.slots == c.slots[k := c2.slots[k]]
    requires c2.prods == c.prods[0 := c2.prods[0]] && c2.prods[0].pc == Idle
    requires forall s :: k <= s < 3 ==> c.slots[s] == ZERO_SLOT
    requires c' == c2.(mods := c'.mods, frees := c'.frees)
    requires c'.mods == [S.Module(k + 1, k + 1, 0, [], 0, c.mods[0].handed + [c2.slots[k]])]
    ensures c'.tail == k + 1 && c'.claims == c.claims + 1
    ensures |c'.mods[0].handed| == |c.mods[0].handed| + 1
    ensures c'.mods[0] == S.Module(k + 1, k + 1, 0, [], 0, c'.mods[0].handed)
    ensures forall s :: k < s < 3 ==> c'.slots[s] == ZERO_SLOT
    ensures |c'.prods| == |c.prods| && c'.prods[0].pc == Idle
    ensures forall p :: 0 < p < |c.prods| ==> c'.prods[p] == c.prods[p]
  {
  }

  lemma TinyStart(cfg: Config) returns (c: S.Ring)
    requires Tiny(cfg)
    ensures S.Init(cfg, c) && |c.prods| == 3 && c.pool == [Meta(0, 0, 0), Meta(0, 0, 0), Meta(0, 0, 0)]
  {
    var idle, blank := S.Producer(Idle, 0), Meta(0, 0, 0);
    c := S.Ring(0, 0, [ZERO_SLOT, ZERO_SLOT, ZERO_SLOT], [blank, blank, blank],
                [S.Module(0, 0, 0, [], 0, [])], [idle, idle, idle], map[]);
  }

  /** Producer `p` reads and falls asleep, while producer 0 has block `k` published and consumed. */
  lemma SleepAndRound(cfg: Config, c: S.Ring, p: nat, k: nat) returns (acts: seq<Action>, c': S.Ring)
    requires Tiny(cfg) && S.Shape(cfg, c) && |c.prods| == 3 && 1 <= p < 3
    requires c.prods[0].pc == Idle && c.prods[p].pc == Idle
    requires k < 2 && c.tail == k && c.mods[0] == S.Module(k, k, 0, [], 0, c.mods[0].handed)
    requires forall s :: k <= s < 3 ==> c.slots[s] == ZERO_SLOT
    ensures Ran(cfg, c, acts, c') && |c'.prods| == 3 && c'.tail == k + 1 && c'.claims == c.claims + 1
    ensures c'.prods[0].pc == Idle && c'.prods[p].pc == SizeOk(k) && c'.prods[3 - p] == c.prods[3 - p]
    ensures |c'.mods[0].handed| == |c.mods[0].handed| + 1
    ensures c'.mods[0] == S.Module(k + 1, k + 1, 0, [], 0, c'.mods[0].handed)
    ensures forall s :: k < s < 3 ==> c'.slots[s] == ZERO_SLOT
  {
    var read, c1 := GoRead(cfg, c, p);
    var round, c2 := GoRound(cfg, c1, k);
    GoOn(cfg, c, read, c1, round, c2);
    acts, c' := read + round, c2;
  }

  /** Producers 1 and 2 read, find positions 0 and 1 free and fall asleep, while producer 0 publishes two
      blocks that are consumed and claims a third. */
  lemma TwoSleepers(cfg: Config, c: S.Ring) returns (acts: seq<Action>, c': S.Ring)
    requires Tiny(cfg) && S.Init(cfg, c) && |c.prods| == 3
    ensures Ran(cfg, c, acts, c') && |c'.prods| == 3
    ensures c'.tail == 0 && c'.claims == 3 && c'.prods[1].pc == SizeOk(0) && c'.prods[2].pc == SizeOk(1)
    ensures c'.mods[0] == S.Module(2, 2, 0, [], 0, c'.mods[0].handed) && |c'.mods[0].handed| == 2
  {
    var first, c1 := SleepAndRound(cfg, c, 1, 0);
    var second, c2 := SleepAndRound(cfg, c1, 2, 1);
    var claim, c3 := GoClaim(cfg, c2);
    GoOn(cfg, c, first, c1, second, c2);
    GoOn(cfg, c, first + second, c2, claim, c3);
    acts, c' := first + second + claim, c3;
  }

  /** The two sleepers wake up. */
  lemma WakeUp(cfg: Config, c: S.Ring) returns (acts: seq<Action>, c': S.Ring)
    requires Tiny(cfg) && S.Shape(cfg, c) && |c.prods| == 3
    requires c.tail == 0 && c.prods[1].pc == SizeOk(0) && c.prods[2].pc == SizeOk(1)
    ensures Ran(cfg, c, acts, c') && c'.tail == 2 && c'.claims == c.claims + 2 && c'.mods == c.mods
  {
    CasEffect(cfg, c, 1, 0);
    acts, c' := Extend(cfg, c, [], Cas(1, true));
    CasEffect(cfg, c', 2, 1);
    acts, c' := Extend(cfg, c, acts, Cas(2, true));
  }

  /** Without the hypothesis on laps the guarantees fail: in a ring of three blocks, two producers that
      sleep between their reads and their compare-and-swap can fill the ring completely, after which it
      reports itself empty while all three blocks are outstanding. */
  lemma LappedClaimsLoseBlocks(cfg: Config) returns (c: S.Ring)
    requires Tiny(cfg)
    ensures Usable(cfg) && S.Shape(cfg, c) && ReachableLapped(cfg, c)
    ensures Moved(c, 0) + 3 == c.claims && S.IsRingEmpty(cfg, c)
  {
    var c0 := TinyStart(cfg);
    var sleep, c1 := TwoSleepers(cfg, c0);
    var wake, c2 := WakeUp(cfg, c1);
    GoOn(cfg, c0, sleep, c1, wake, c2);
    c := c2;
  }

  // ------------------------------------------------------------ dead rings

  /** Nothing was ever claimed. */
  ghost predicate Untouched(cfg: Config, c: S.Ring) {
    && S.Shape(cfg, c) && c.tail == 0 && c.claims == 0 && c.frees == map[]
    && (forall id :: 0 <= id < |c.mods| ==> c.mods[id] == S.Module(0, 0, 0, [], 0, []))
    && (forall p :: 0 <= p < |c.prods| ==> c.prods[p].pc == Idle || c.prods[p].pc == TailRead(0))
  }

  lemma UntouchedStep(cfg: Config, c: S.Ring, act: Action)
    requires cfg.blkCount <= 2 && Untouched(cfg, c) && S.Enabled(cfg, c, act)
    ensures Untouched(cfg, S.Next(cfg, c, act))
  {
    if act.ReadTail? || act.ReadLimit? {
      UntouchedRead(cfg, c, act);
    } else if act.ScanLimit? {
      SmallMod(0, cfg.blkCount);
      assert c.mods == c.mods[act.id := c.mods[act.id]];
    }
  }

  lemma UntouchedRead(cfg: Config, c: S.Ring, act: Action)
    requires cfg.blkCount <= 2 && Untouched(cfg, c) && S.Enabled(cfg, c, act) && (act.ReadTail? || act.ReadLimit?)
    ensures Untouched(cfg, S.Next(cfg, c, act))
  {
    SmallMod(0, cfg.blkCount);
    SmallMod(2 - cfg.blkCount, cfg.blkCount);
    if act.ReadLimit? {
      assert (0 + 2) % cfg.blkCount == 0;
    }
  }

  lemma {:induction false} UntouchedRun(cfg: Config, c: S.Ring, acts: seq<Action>)
    requires cfg.blkCount <= 2 && Untouched(cfg, c) && S.Legal(cfg, c, acts)
    ensures Untouched(cfg, S.Exec(cfg, c, acts))
    decreases |acts|
  {
    if acts != [] {
      UntouchedStep(cfg, c, acts[0]);
      UntouchedRun(cfg, S.Next(cfg, c, acts[0]), acts[1..]);
    }
  }

  /** A started ring with a producer ever accepts a block exactly when it has at least three. */
  lemma AcceptsIff(cfg: Config, c0: S.Ring)
    requires S.Init(cfg, c0) && |c0.prods| > 0
    ensures cfg.blkCount >= 3 <==> exists acts :: S.Legal(cfg, c0, acts) && S.Exec(cfg, c0, acts).claims > 0
  {
    if cfg.blkCount >= 3 {
      SmallMod(2, cfg.blkCount);
      FirstClaim(cfg, c0);
    } else {
      forall acts | S.Legal(cfg, c0, acts) ensures S.Exec(cfg, c0, acts).claims == 0 {
        UntouchedRun(cfg, c0, acts);
      }
    }
  }

  lemma FirstClaim(cfg: Config, c0: S.Ring)
    requires S.Init(cfg, c0) && |c0.prods| > 0 && cfg.blkCount >= 3
    ensures exists acts :: S.Legal(cfg, c0, acts) && S.Exec(cfg, c0, acts).claims > 0
  {
    SmallMod(2, cfg.blkCount);
    ClaimRuns(cfg, c0, 0);
    assert S.Exec(cfg, c0, ClaimSteps(0)).claims > 0;
  }
}
