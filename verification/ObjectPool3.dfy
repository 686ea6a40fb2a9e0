/** The object pools that hand out the objects of one array: `CObjectPool` in strict circular order, and
    `CObjectPool3`, which skips objects still in use. Both as one thread runs them. */
module ObjectPool3 {
  import opened Modular

  /** The object `k` places on from the cursor. */
  function At(cur: nat, k: nat, n: nat): (r: nat)
    requires cur < n && k < n
    ensures r < n
  {
    if cur + k < n then cur + k else cur + k - n
  }

  /** The index after `obj`, as the code computes it. */
  function Succ(obj: nat, n: nat): (r: nat)
    requires obj < n
    ensures r < n && r == (obj + 1) % n
  {
    SmallMod(obj + 1, n);
    if obj + 1 < n then obj + 1 else 0
  }

  /** How many objects in use lie before the first free one, from the cursor on in circular order. */
  ghost function Skipped(used: seq<bool>, cur: nat, from: nat): (k: nat)
    requires cur < |used| && from < |used|
    requires exists j :: from <= j < |used| && !used[At(cur, j, |used|)]
    ensures from <= k < |used| && !used[At(cur, k, |used|)]
    ensures forall j :: from <= j < k ==> used[At(cur, j, |used|)]
    decreases |used| - from
  {
    if !used[At(cur, from, |used|)] then from else Skipped(used, cur, from + 1)
  }

  /** Every object is some number of places on from the cursor. */
  lemma Reached(cur: nat, i: nat, n: nat) returns (k: nat)
    requires cur < n && i < n
    ensures k < n && At(cur, k, n) == i
  {
    k := if i >= cur then i - cur else i + n - cur;
  }

  lemma SomeFree(used: seq<bool>, cur: nat)
    requires cur < |used| && exists i :: 0 <= i < |used| && !used[i]
    ensures exists k :: 0 <= k < |used| && !used[At(cur, k, |used|)]
  {
    var i :| 0 <= i < |used| && !used[i];
    var k := Reached(cur, i, |used|);
  }

  /** The two pools as values: which objects are in use, and the cursor. */
  datatype Pool = Pool(used: seq<bool>, cur: nat)

  ghost predicate Ready(s: Pool) {
    s.cur < |s.used| && exists i :: 0 <= i < |s.used| && !s.used[i]
  }

  /** The object `GetBlock` returns. */
  ghost function Chosen(s: Pool): (obj: nat)
    requires Ready(s)
    ensures obj < |s.used| && !s.used[obj]
  {
    SomeFree(s.used, s.cur);
    At(s.cur, Skipped(s.used, s.cur, 0), |s.used|)
  }

  ghost function Taken(s: Pool): Pool
    requires Ready(s)
  {
    Pool(s.used[Chosen(s) := true], Succ(Chosen(s), |s.used|))
  }

  /** `GetBlock` has no freedom: its contract determines the object. */
  lemma ChosenUnique(s: Pool, k: nat)
    requires Ready(s) && k < |s.used| && !s.used[At(s.cur, k, |s.used|)]
    requires forall j :: 0 <= j < k ==> s.used[At(s.cur, j, |s.used|)]
    ensures At(s.cur, k, |s.used|) == Chosen(s)
  {
    SomeFree(s.used, s.cur);
    assert Skipped(s.used, s.cur, 0) == k;
  }

  /** The C expression `a % n` on values below two laps. */
  function Rem(a: nat, n: nat): (r: nat)
    requires n > 0 && a < 2 * n
    ensures r < n && r == if a < n then a else a - n
  {
    SmallMod(a, n);
    a % n
  }

  class ObjectPool {
    const used: array<bool>
    var curIndex: nat

    ghost predicate Valid()
      reads this
    {
      used.Length > 0 && curIndex < used.Length
    }

    ghost function View(): Pool
      reads this, used
    {
      Pool(used[..], curIndex)
    }

    constructor (count: nat)
      requires count > 0
      ensures Valid() && used.Length == count && curIndex == 0 && fresh(used)
      ensures forall i :: 0 <= i < count ==> !used[i]
    {
      used := new bool[count](_ => false);
      curIndex := 0;
    }

    /** `CObjectPool.getBlock`. It waits for the object at the cursor; here that object is free. */
    method GetInOrder() returns (obj: nat)
      requires Valid() && !used[curIndex]
      modifies this, used
      ensures Valid()
      ensures obj == old(curIndex) && curIndex == Succ(obj, used.Length)
      ensures used[..] == old(used[..])[obj := true]
      ensures Ready(old(View())) && obj == Chosen(old(View())) && View() == Taken(old(View()))
    {
      assert At(curIndex, 0, used.Length) == curIndex;
      ChosenUnique(View(), 0);
      obj := curIndex;
      var nextIndex := Rem(obj + 1, used.Length);
      curIndex := nextIndex;
      used[obj] := true;
    }

    /** `CObjectPool3.getBlock`: the first free object at or after the cursor in circular order. The scan
        is endless when there is none, so one must be free. */
    method GetBlock() returns (obj: nat, ghost probes: nat)
      requires Valid() && exists i :: 0 <= i < used.Length && !used[i]
      modifies this, used
      ensures Valid() && probes < used.Length
      ensures obj == At(old(curIndex), probes, used.Length) && old(!used[obj])
      ensures forall j :: 0 <= j < probes ==> old(used[At(curIndex, j, used.Length)])
      ensures curIndex == Succ(obj, used.Length)
      ensures used[..] == old(used[..])[obj := true]
      ensures Ready(old(View())) && obj == Chosen(old(View())) && View() == Taken(old(View()))
    {
      var n := used.Length;
      ghost var before := View();
      SomeFree(used[..], curIndex);
      ghost var goal := Skipped(used[..], curIndex, 0);
      var cur := Rem(curIndex, n);
      var nextIndex := Rem(cur + 1, n);
      obj := cur;
      probes := 0;
      while used[obj]
        invariant probes <= goal && obj == At(cur, probes, n) && nextIndex == Succ(obj, n)
        invariant forall j :: 0 <= j < probes ==> used[At(cur, j, n)]
        decreases goal - probes
      {
        obj := Rem(nextIndex, n);
        nextIndex := nextIndex + 1;
        if nextIndex >= n {
          nextIndex := 0;
        }
        probes := probes + 1;
      }
      ChosenUnique(before, probes);
      nextIndex := Rem(nextIndex, n);
      curIndex := nextIndex;
      used[obj] := true;
    }

    method Release(obj: nat)
      requires Valid() && obj < used.Length
      modifies used
      ensures Valid() && used[..] == old(used[..])[obj := false]
    {
      used[obj] := false;
    }
  }

  // ------------------------------------------------------------------ runs

  /** `m` requests in a row. */
  ghost function TakenTimes(s: Pool, m: nat): Pool
    requires AllFreeFrom(s, m)
    decreases m
  {
    if m == 0 then s else AfterOne(s, m); TakenTimes(Taken(s), m - 1)
  }

  /** The `m` objects from the cursor on are free. */
  ghost predicate AllFreeFrom(s: Pool, m: nat) {
    s.cur < |s.used| && m <= |s.used| && forall k :: 0 <= k < m ==> !s.used[At(s.cur, k, |s.used|)]
  }

  lemma AfterOne(s: Pool, m: nat)
    requires m > 0 && AllFreeFrom(s, m)
    ensures Ready(s) && Chosen(s) == s.cur && Taken(s).cur == Succ(s.cur, |s.used|)
    ensures AllFreeFrom(Taken(s), m - 1)
  {
    var n := |s.used|;
    assert At(s.cur, 0, n) == s.cur;
    ChosenUnique(s, 0);
    forall k | 0 <= k < m - 1 ensures !Taken(s).used[At(Taken(s).cur, k, n)] {
      assert At(s.cur, k + 1, n) == At(Taken(s).cur, k, n);
    }
  }

  /** While nothing ahead is in use, the pool is first in, first out: request `m` returns the object `m`
      places on from the cursor, just as the strict pool does. */
  lemma {:induction false} InOrderWhileFree(s: Pool, m: nat)
    requires AllFreeFrom(s, m + 1)
    ensures AllFreeFrom(s, m) && Ready(TakenTimes(s, m)) && Chosen(TakenTimes(s, m)) == At(s.cur, m, |s.used|)
    ensures |TakenTimes(s, m).used| == |s.used|
    decreases m
  {
    AfterOne(s, m + 1);
    if m > 0 {
      AfterOne(s, m);
      InOrderWhileFree(Taken(s), m - 1);
    }
  }
}
