/**
 * `DescriptorAllocator` (src/renderer/vk_descriptors.cpp): a growable set of descriptor
 * pools. Pools with room are kept in `ready_pools`, exhausted ones in `full_pools`, and
 * every new pool is made 1.5 times larger than the previous one, up to 4092 sets.
 *
 * The driver is modelled by the calls the allocator makes on it: a pool it creates gets
 * the next unused id, and the outcome of each descriptor-set allocation is a parameter.
 */
module DescriptorAllocation {
  import opened Defs
  import opened VkHandles

  /** Largest number of sets a pool is ever grown to. */
  const MAX_SETS_PER_POOL: int := 4092

  /** `PoolSizeRatio`; the float ratio only sizes pools, which is not modelled. */
  datatype PoolSizeRatio = PoolSizeRatio(descriptorType: DescriptorType, ratio: real)

  /** A call the allocator makes on the device. */
  datatype DeviceCall =
    | CreatePool(pool: PoolId, maxSets: Uint32, ratios: seq<PoolSizeRatio>)
    | ResetPool(pool: PoolId)
    | DestroyPool(pool: PoolId)
    | AllocateSet(pool: PoolId)

  /** What `vkAllocateDescriptorSets` answers. */
  datatype AllocOutcome =
    | Allocated(handle: SetId)
    | OutOfPoolMemory
    | FragmentedPool
    | OtherError(code: int)

  /** The outcomes on which `allocate` gives up on a pool and retries with another. */
  predicate Exhausted(o: AllocOutcome) {
    o == OutOfPoolMemory || o == FragmentedPool
  }

  /**
   * The set `allocate` returns: one the driver wrote, or the local that no call wrote,
   * when the first attempt fails in a way `allocate` does not check.
   */
  datatype SetHandle = Written(id: SetId) | Unwritten

  /** The message `VK_CHECK` prints before it aborts. */
  const VK_CHECK_MESSAGE: string := "Detected Vulkan error"

  /** The allocator's fields other than `ratios`, and the device calls made so far. */
  datatype Pools = Pools(ready: seq<PoolId>, full: seq<PoolId>, setsPerPool: Uint32, nextPool: nat, calls: seq<DeviceCall>)

  // ---------------------------------------------------------------------------
  // Pool bookkeeping as functions of the allocator's state
  // ---------------------------------------------------------------------------

  predicate NoDuplicates(s: seq<PoolId>) {
    forall i, j :: 0 <= i < j < |s| ==> s[i] != s[j]
  }

  /** Each pool is held once, ready or full, and was created by the device. */
  predicate PoolsValid(p: Pools) {
    && NoDuplicates(p.ready + p.full)
    && (forall x :: x in p.ready + p.full ==> x < p.nextPool)
  }

  /** `sets_per_pool * 1.5` converts back to `uint32_t` without leaving its range. */
  predicate CanGrow(s: Uint32) {
    s * 3 / 2 < UINT32_LIMIT
  }

  /**
   * `sets_per_pool * 1.5`, truncated to `uint32_t`, then capped at 4092. The product of
   * an integer and 1.5 is exact in a `double`, so the truncation is `3 * s / 2`.
   */
  function Grow(s: Uint32): (g: Uint32)
    requires CanGrow(s)
  {
    if s * 3 / 2 > MAX_SETS_PER_POOL then MAX_SETS_PER_POOL else s * 3 / 2
  }

  /** A pool of `setCount` sets made by `create_pool`: the next id. */
  function CreatedPool(p: Pools, setCount: Uint32, ratios: seq<PoolSizeRatio>): (PoolId, Pools) {
    (p.nextPool, p.(nextPool := p.nextPool + 1, calls := p.calls + [CreatePool(p.nextPool, setCount, ratios)]))
  }

  /** `get_pool`'s precondition: a ready pool to reuse, or a growth that stays in range. */
  predicate CanGetPool(p: Pools) {
    |p.ready| > 0 || CanGrow(p.setsPerPool)
  }

  /** `get_pool`: the last ready pool, removed from the list, or else a new pool. */
  function GetPoolSpec(p: Pools, ratios: seq<PoolSizeRatio>): (PoolId, Pools)
    requires CanGetPool(p)
  {
    if |p.ready| != 0 then
      (p.ready[|p.ready| - 1], p.(ready := p.ready[..|p.ready| - 1]))
    else
      var (pool, q) := CreatedPool(p, p.setsPerPool, ratios);
      (pool, q.(setsPerPool := Grow(p.setsPerPool)))
  }

  /** What `allocate` needs: its one or two `get_pool` calls stay in range. */
  predicate CanAllocate(p: Pools, first: AllocOutcome) {
    || |p.ready| >= 2
    || CanGrow(p.setsPerPool)
    || (|p.ready| == 1 && !Exhausted(first))
  }

  /**
   * `allocate`: take a pool and allocate from it; if that pool is exhausted, file it as
   * full, take another and allocate again, where any failure aborts. The pool finally
   * used goes back on the ready list.
   */
  function AllocateSpec(p: Pools, ratios: seq<PoolSizeRatio>, first: AllocOutcome, second: AllocOutcome)
    : (Result<SetHandle, string>, Pools)
    requires CanAllocate(p, first)
  {
    var (pool, q) := GetPoolSpec(p, ratios);
    var q1 := q.(calls := q.calls + [AllocateSet(pool)]);
    if Exhausted(first) then
      var q2 := q1.(full := q1.full + [pool]);
      assert CanGetPool(q2);
      var (pool2, q3) := GetPoolSpec(q2, ratios);
      var q4 := q3.(calls := q3.calls + [AllocateSet(pool2)]);
      if second.Allocated? then
        (Ok(Written(second.handle)), q4.(ready := q4.ready + [pool2]))
      else
        (Err(VK_CHECK_MESSAGE), q4)
    else
      (Ok(if first.Allocated? then Written(first.handle) else Unwritten), q1.(ready := q1.ready + [pool]))
  }

  /** One `ResetPool` call per pool, in order. */
  function Resets(s: seq<PoolId>): (r: seq<DeviceCall>)
    ensures |r| == |s|
  {
    seq(|s|, i requires 0 <= i < |s| => ResetPool(s[i]))
  }

  /** One `DestroyPool` call per pool, in order. */
  function Destroys(s: seq<PoolId>): (r: seq<DeviceCall>)
    ensures |r| == |s|
  {
    seq(|s|, i requires 0 <= i < |s| => DestroyPool(s[i]))
  }

  /** `clear_pools`: every pool is reset, and the full ones join the ready ones. */
  function ClearPoolsSpec(p: Pools): Pools {
    p.(ready := p.ready + p.full, full := [], calls := p.calls + Resets(p.ready) + Resets(p.full))
  }

  /** `destroy_pools`: every pool is destroyed and neither list keeps any. */
  function DestroyPoolsSpec(p: Pools): Pools {
    p.(ready := [], full := [], calls := p.calls + Destroys(p.ready) + Destroys(p.full))
  }

  // ---------------------------------------------------------------------------
  // Properties of the bookkeeping
  // ---------------------------------------------------------------------------

  /** Growth never passes the cap, and only a value already past the cap can shrink. */
  lemma GrowBounds(s: Uint32)
    requires CanGrow(s)
    ensures Grow(s) <= MAX_SETS_PER_POOL
    ensures s <= MAX_SETS_PER_POOL ==> s <= Grow(s)
    ensures 2 <= s < MAX_SETS_PER_POOL ==> s < Grow(s)
    ensures s >= 2728 ==> Grow(s) == MAX_SETS_PER_POOL
    ensures s <= 1 ==> Grow(s) == s
  {
  }

  /** `n` successive growths. */
  function GrowTimes(s: Uint32, n: nat): Uint32
    requires s <= MAX_SETS_PER_POOL
    decreases n
  {
    if n == 0 then s else GrowTimes(Grow(s), n - 1)
  }

  /**
   * From any size of at least 2 sets, growing reaches the cap within `4092 - s` steps
   * and stays there; a pool of 0 or 1 sets never grows.
   */
  lemma {:induction false} GrowReachesCap(s: Uint32, n: nat)
    requires s <= MAX_SETS_PER_POOL
    ensures 2 <= s && n >= MAX_SETS_PER_POOL - s ==> GrowTimes(s, n) == MAX_SETS_PER_POOL
    ensures s <= 1 ==> GrowTimes(s, n) == s
    decreases n
  {
    if n > 0 {
      GrowBounds(s);
      GrowReachesCap(Grow(s), n - 1);
    }
  }

  /** The pools the allocator holds: the ready ones, then the full ones. */
  function Held(p: Pools): seq<PoolId> {
    p.ready + p.full
  }

  /** Adding a pool held nowhere, anywhere in the list, keeps every pool held once. */
  lemma InsertFresh(a: seq<PoolId>, b: seq<PoolId>, x: PoolId)
    requires NoDuplicates(a + b) && x !in a + b
    ensures NoDuplicates(a + [x] + b)
  {
    var s := a + [x] + b;
    forall i, j | 0 <= i < j < |s|
      ensures s[i] != s[j]
    {
      var n := |a|;
      if i != n && j != n {
        var i' := if i < n then i else i - 1;
        var j' := if j < n then j else j - 1;
        assert s[i] == (a + b)[i'] && s[j] == (a + b)[j'];
      } else if i == n {
        assert s[j] == (a + b)[j - 1];
      } else {
        assert s[i] == (a + b)[i];
      }
    }
  }

  /** Removing the last ready pool keeps every other pool held once. */
  lemma RemoveLast(a: seq<PoolId>, b: seq<PoolId>)
    requires |a| > 0 && NoDuplicates(a + b)
    ensures NoDuplicates(a[..|a| - 1] + b)
    ensures a[|a| - 1] !in a[..|a| - 1] + b
  {
    var n := |a| - 1;
    var all, rest := a + b, a[..n] + b;
    assert forall k :: 0 <= k < |rest| ==> rest[k] == all[if k < n then k else k + 1];
    assert all[n] == a[n];
  }

  /**
   * `get_pool` reuses the last ready pool when there is one, and otherwise creates a
   * pool the allocator did not hold and grows `sets_per_pool`. Either way the pool it
   * returns is no longer on either list, and no other pool is lost or added.
   */
  lemma GetPoolReusesOrCreates(p: Pools, ratios: seq<PoolSizeRatio>)
    requires PoolsValid(p) && CanGetPool(p)
    ensures var (pool, q) := GetPoolSpec(p, ratios);
      && q.full == p.full
      && (|p.ready| > 0 ==>
            && pool == p.ready[|p.ready| - 1]
            && q.ready + [pool] == p.ready
            && q.setsPerPool == p.setsPerPool && q.nextPool == p.nextPool && q.calls == p.calls)
      && (|p.ready| == 0 ==>
            && pool == p.nextPool && q.nextPool == p.nextPool + 1 && q.ready == []
            && q.setsPerPool == Grow(p.setsPerPool) && q.setsPerPool <= MAX_SETS_PER_POOL
            && q.calls == p.calls + [CreatePool(pool, p.setsPerPool, ratios)])
      && PoolsValid(q) && pool !in Held(q) && pool < q.nextPool
      && (forall x :: x in Held(p) ==> x in Held(q) || x == pool)
      && (forall x :: x in Held(q) ==> x in Held(p))
  {
    var (pool, q) := GetPoolSpec(p, ratios);
    if |p.ready| > 0 {
      RemoveLast(p.ready, p.full);
      assert p.ready == q.ready + [pool];
      assert Held(p) == q.ready + [pool] + q.full;
      assert forall x :: x in Held(q) ==> x in Held(p);
      assert pool in Held(p);
    } else {
      GrowBounds(p.setsPerPool);
      assert Held(q) == Held(p);
    }
  }

  /** Appending a pool held nowhere keeps every pool held once. */
  lemma AppendFresh(s: seq<PoolId>, x: PoolId)
    requires NoDuplicates(s) && x !in s
    ensures NoDuplicates(s + [x])
  {
  }

  /** Giving back the pool `get_pool` returned, at the back of the ready list. */
  lemma PutBackReady(q: Pools, pool: PoolId)
    requires PoolsValid(q) && pool !in Held(q) && pool < q.nextPool
    ensures PoolsValid(q.(ready := q.ready + [pool]))
    ensures Held(q.(ready := q.ready + [pool])) == q.ready + [pool] + q.full
  {
    InsertFresh(q.ready, q.full, pool);
    var q' := q.(ready := q.ready + [pool]);
    assert Held(q') == q.ready + [pool] + q.full;
    assert forall x :: x in Held(q') ==> x in Held(q) || x == pool;
  }

  /** Filing the pool `get_pool` returned at the back of the full list. */
  lemma PutBackFull(q: Pools, pool: PoolId)
    requires PoolsValid(q) && pool !in Held(q) && pool < q.nextPool
    ensures PoolsValid(q.(full := q.full + [pool]))
    ensures Held(q.(full := q.full + [pool])) == Held(q) + [pool]
  {
    AppendFresh(Held(q), pool);
    assert Held(q.(full := q.full + [pool])) == Held(q) + [pool];
  }

  /** `allocate` when the first attempt does not exhaust its pool. */
  lemma AllocateOnceKeepsPools(p: Pools, ratios: seq<PoolSizeRatio>, first: AllocOutcome, second: AllocOutcome)
    requires PoolsValid(p) && CanAllocate(p, first) && !Exhausted(first)
    ensures var (r, q) := AllocateSpec(p, ratios, first, second);
      && r.Ok? && PoolsValid(q)
      && (forall x :: x in Held(p) ==> x in Held(q))
      && (forall x :: x in Held(q) ==> x in Held(p) || p.nextPool <= x < q.nextPool)
      && |q.ready| > 0 && q.ready[|q.ready| - 1] == AllocatedFrom(p, ratios, first)
      && q.full == p.full
  {
    var (pool, q) := GetPoolSpec(p, ratios);
    GetPoolReusesOrCreates(p, ratios);
    var q1 := q.(calls := q.calls + [AllocateSet(pool)]);
    var handle := if first.Allocated? then Written(first.handle) else Unwritten;
    assert AllocateSpec(p, ratios, first, second) == (Ok(handle), q1.(ready := q1.ready + [pool]));
    assert AllocatedFrom(p, ratios, first) == pool;
    PutBackReady(q1, pool);
  }

  /** The allocator's state once `allocate` has filed an exhausted pool as full. */
  function Filed(p: Pools, ratios: seq<PoolSizeRatio>): Pools
    requires CanGetPool(p)
  {
    var (pool, q) := GetPoolSpec(p, ratios);
    q.(calls := q.calls + [AllocateSet(pool)], full := q.full + [pool])
  }

  /** Filing the exhausted pool keeps every pool held once and adds only new ones. */
  lemma FiledKeepsPools(p: Pools, ratios: seq<PoolSizeRatio>)
    requires PoolsValid(p) && CanGetPool(p)
    ensures var q2 := Filed(p, ratios);
      && PoolsValid(q2)
      && q2.full == p.full + [GetPoolSpec(p, ratios).0]
      && (forall x :: x in Held(p) ==> x in Held(q2))
      && (forall x :: x in Held(q2) ==> x in Held(p) || p.nextPool <= x < q2.nextPool)
  {
    var (pool, q) := GetPoolSpec(p, ratios);
    GetPoolReusesOrCreates(p, ratios);
    var q1 := q.(calls := q.calls + [AllocateSet(pool)]);
    PutBackFull(q1, pool);
    assert Filed(p, ratios) == q1.(full := q1.full + [pool]);
  }

  /** `allocate` when the first attempt exhausts its pool and a second pool is taken. */
  lemma AllocateRetryKeepsPools(p: Pools, ratios: seq<PoolSizeRatio>, first: AllocOutcome, second: AllocOutcome)
    requires PoolsValid(p) && CanAllocate(p, first) && Exhausted(first)
    ensures var (r, q) := AllocateSpec(p, ratios, first, second);
      && PoolsValid(q)
      && (r.Ok? ==> forall x :: x in Held(p) ==> x in Held(q))
      && (forall x :: x in Held(q) ==> x in Held(p) || p.nextPool <= x < q.nextPool)
      && (r.Ok? ==> |q.ready| > 0 && q.ready[|q.ready| - 1] == AllocatedFrom(p, ratios, first))
      && q.full == p.full + [GetPoolSpec(p, ratios).0]
  {
    var q2 := Filed(p, ratios);
    FiledKeepsPools(p, ratios);
    assert CanGetPool(q2);
    GetPoolReusesOrCreates(q2, ratios);
    var (pool2, q3) := GetPoolSpec(q2, ratios);
    var q4 := q3.(calls := q3.calls + [AllocateSet(pool2)]);
    assert AllocatedFrom(p, ratios, first) == pool2;
    if second.Allocated? {
      assert AllocateSpec(p, ratios, first, second) == (Ok(Written(second.handle)), q4.(ready := q4.ready + [pool2]));
      PutBackReady(q4, pool2);
    } else {
      assert AllocateSpec(p, ratios, first, second) == (Err(VK_CHECK_MESSAGE), q4);
    }
  }

  /**
   * `allocate` loses no pool and duplicates none, and every pool it adds is a new one.
   * A successful allocation ends with the pool it used at the back of `ready_pools`. On
   * a retry the exhausted pool ends at the back of `full_pools`; otherwise `full_pools`
   * is unchanged.
   */
  lemma AllocateKeepsPools(p: Pools, ratios: seq<PoolSizeRatio>, first: AllocOutcome, second: AllocOutcome)
    requires PoolsValid(p) && CanAllocate(p, first)
    ensures var (r, q) := AllocateSpec(p, ratios, first, second);
      && PoolsValid(q)
      && (r.Ok? ==> forall x :: x in Held(p) ==> x in Held(q))
      && (forall x :: x in Held(q) ==> x in Held(p) || p.nextPool <= x < q.nextPool)
      && (r.Ok? ==> |q.ready| > 0 && q.ready[|q.ready| - 1] == AllocatedFrom(p, ratios, first))
      && (!Exhausted(first) ==> q.full == p.full)
      && (Exhausted(first) ==> q.full == p.full + [GetPoolSpec(p, ratios).0])
  {
    if Exhausted(first) {
      AllocateRetryKeepsPools(p, ratios, first, second);
    } else {
      AllocateOnceKeepsPools(p, ratios, first, second);
    }
  }

  /** The pool a successful `allocate` allocated from: the second one taken after a retry. */
  function AllocatedFrom(p: Pools, ratios: seq<PoolSizeRatio>, first: AllocOutcome): PoolId
    requires CanAllocate(p, first)
  {
    var (pool, q) := GetPoolSpec(p, ratios);
    if Exhausted(first) then
      var q2 := q.(calls := q.calls + [AllocateSet(pool)], full := q.full + [pool]);
      assert CanGetPool(q2);
      GetPoolSpec(q2, ratios).0
    else
      pool
  }

  /** `allocate` returns the set the driver wrote, and fails only when the retry fails. */
  lemma AllocateResult(p: Pools, ratios: seq<PoolSizeRatio>, first: AllocOutcome, second: AllocOutcome)
    requires CanAllocate(p, first)
    ensures var r := AllocateSpec(p, ratios, first, second).0;
      && (first.Allocated? ==> r == Ok(Written(first.handle)))
      && (first.OtherError? ==> r == Ok(Unwritten))
      && (Exhausted(first) && second.Allocated? ==> r == Ok(Written(second.handle)))
      && (r.Err? <==> Exhausted(first) && !second.Allocated?)
  {
  }

  /** `clear_pools` loses no pool and duplicates none, and resets each one exactly once. */
  lemma ClearPoolsKeepsPools(p: Pools)
    requires PoolsValid(p)
    ensures PoolsValid(ClearPoolsSpec(p))
    ensures ClearPoolsSpec(p).ready == p.ready + p.full && ClearPoolsSpec(p).full == []
    ensures multiset(ClearPoolsSpec(p).calls[|p.calls|..]) == multiset(Resets(p.ready + p.full))
  {
    var q := ClearPoolsSpec(p);
    assert q.ready + q.full == p.ready + p.full;
    assert q.calls[|p.calls|..] == Resets(p.ready) + Resets(p.full);
    assert Resets(p.ready) + Resets(p.full) == Resets(p.ready + p.full);
  }

  /** Every held pool is destroyed exactly once by `destroy_pools`, and no other pool. */
  lemma DestroyPoolsOnce(p: Pools, x: PoolId)
    requires PoolsValid(p)
    ensures DestroyPoolsSpec(p).ready == [] && DestroyPoolsSpec(p).full == []
    ensures multiset(DestroyPoolsSpec(p).calls[|p.calls|..])[DestroyPool(x)]
         == if x in p.ready + p.full then 1 else 0
  {
    var q := DestroyPoolsSpec(p);
    var all := p.ready + p.full;
    assert q.calls[|p.calls|..] == Destroys(p.ready) + Destroys(p.full);
    assert Destroys(p.ready) + Destroys(p.full) == Destroys(all);
    DestroysCount(all, x);
  }

  /** In the calls for distinct pools, each pool is destroyed as often as it occurs. */
  lemma {:induction false} DestroysCount(s: seq<PoolId>, x: PoolId)
    requires NoDuplicates(s)
    ensures multiset(Destroys(s))[DestroyPool(x)] == if x in s then 1 else 0
  {
    if |s| > 0 {
      var n := |s| - 1;
      assert Destroys(s) == Destroys(s[..n]) + [DestroyPool(s[n])];
      assert s == s[..n] + [s[n]];
      DestroysCount(s[..n], x);
    }
  }

  // ---------------------------------------------------------------------------
  // The class
  // ---------------------------------------------------------------------------

  class DescriptorAllocator {
    /** `ratios`. */
    var ratios: seq<PoolSizeRatio>
    /** `full_pools`. */
    var fullPools: seq<PoolId>
    /** `ready_pools`. */
    var readyPools: seq<PoolId>
    /** `sets_per_pool`. */
    var setsPerPool: Uint32
    /** The id the device hands out for the next pool it creates. */
    var nextPool: nat
    /** The calls made on the device so far. */
    var calls: seq<DeviceCall>

    function State(): Pools
      reads this
    {
      Pools(readyPools, fullPools, setsPerPool, nextPool, calls)
    }

    ghost predicate Valid()
      reads this
    {
      PoolsValid(State())
    }

    /** A default-constructed allocator: no pools; the source leaves `sets_per_pool` unset. */
    constructor (initialSetsPerPool: Uint32)
      ensures Valid() && State() == Pools([], [], initialSetsPerPool, 0, []) && ratios == []
    {
      ratios, fullPools, readyPools := [], [], [];
      setsPerPool, nextPool, calls := initialSetsPerPool, 0, [];
    }

    /** `create_pool`: the device makes a pool of `setCount` sets. */
    method NewPool(setCount: Uint32, poolRatios: seq<PoolSizeRatio>) returns (pool: PoolId)
      requires Valid()
      modifies this
      ensures Valid() && pool !in Held(State()) && pool < nextPool
      ensures (pool, State()) == CreatedPool(old(State()), setCount, poolRatios)
      ensures ratios == old(ratios)
    {
      pool := nextPool;
      nextPool := nextPool + 1;
      calls := calls + [CreatePool(pool, setCount, poolRatios)];
    }

    /**
     * `init`: copy the ratios, create one pool of `initialSets` sets and make it ready,
     * and size the next pool at 1.5 times that.
     */
    method Init(initialSets: Uint32, poolRatios: seq<PoolSizeRatio>)
      requires Valid() && CanGrow(initialSets)
      modifies this
      ensures Valid()
      ensures ratios == poolRatios
      ensures readyPools == old(readyPools) + [old(nextPool)] && fullPools == old(fullPools)
      ensures setsPerPool == initialSets * 3 / 2
      ensures nextPool == old(nextPool) + 1
      ensures calls == old(calls) + [CreatePool(old(nextPool), initialSets, poolRatios)]
    {
      var copied: seq<PoolSizeRatio> := [];
      for i := 0 to |poolRatios|
        invariant copied == poolRatios[..i]
      {
        copied := copied + [poolRatios[i]];
      }
      ratios := copied;
      var newPool := NewPool(initialSets, poolRatios);
      setsPerPool := initialSets * 3 / 2;
      ghost var created := State();
      assert PoolsValid(created) && newPool !in Held(created) by {
        assert Held(created) == Held(old(State()));
      }
      PutBackReady(created, newPool);
      readyPools := readyPools + [newPool];
    }

    /** `get_pool`. */
    method GetPool() returns (pool: PoolId)
      requires Valid() && CanGetPool(State())
      modifies this
      ensures Valid() && pool !in Held(State()) && pool < nextPool
      ensures (pool, State()) == GetPoolSpec(old(State()), ratios)
      ensures ratios == old(ratios)
    {
      if |readyPools| != 0 {
        pool := readyPools[|readyPools| - 1];
        readyPools := readyPools[..|readyPools| - 1];
      } else {
        pool := NewPool(setsPerPool, ratios);
        setsPerPool := setsPerPool * 3 / 2;
        if setsPerPool > MAX_SETS_PER_POOL {
          setsPerPool := MAX_SETS_PER_POOL;
        }
      }
      GetPoolReusesOrCreates(old(State()), ratios);
    }

    /** `allocate`, with the driver's answers to the first and the retried allocation. */
    method Allocate(first: AllocOutcome, second: AllocOutcome) returns (r: Result<SetHandle, string>)
      requires Valid() && CanAllocate(State(), first)
      modifies this
      ensures Valid()
      ensures (r, State()) == AllocateSpec(old(State()), ratios, first, second)
      ensures ratios == old(ratios)
    {
      var poolToUse := GetPool();
      calls := calls + [AllocateSet(poolToUse)];
      var descriptorSet := Unwritten;
      if first.Allocated? {
        descriptorSet := Written(first.handle);
      }
      if Exhausted(first) {
        PutBackFull(State(), poolToUse);
        fullPools := fullPools + [poolToUse];
        poolToUse := GetPool();
        calls := calls + [AllocateSet(poolToUse)];
        if !second.Allocated? {
          AllocateKeepsPools(old(State()), ratios, first, second);
          return Err(VK_CHECK_MESSAGE);
        }
        descriptorSet := Written(second.handle);
      }
      readyPools := readyPools + [poolToUse];
      r := Ok(descriptorSet);
      AllocateKeepsPools(old(State()), ratios, first, second);
    }

    /** `clear_pools`: reset every ready pool, then reset each full pool and make it ready. */
    method ClearPools()
      requires Valid()
      modifies this
      ensures Valid()
      ensures State() == ClearPoolsSpec(old(State()))
      ensures ratios == old(ratios)
    {
      for i := 0 to |readyPools|
        invariant readyPools == old(readyPools) && fullPools == old(fullPools)
        invariant calls == old(calls) + Resets(readyPools[..i])
        invariant setsPerPool == old(setsPerPool) && nextPool == old(nextPool) && ratios == old(ratios)
      {
        assert Resets(readyPools[..i + 1]) == Resets(readyPools[..i]) + [ResetPool(readyPools[i])];
        calls := calls + [ResetPool(readyPools[i])];
      }
      assert readyPools[..|readyPools|] == readyPools;
      for i := 0 to |fullPools|
        invariant fullPools == old(fullPools)
        invariant readyPools == old(readyPools) + fullPools[..i]
        invariant calls == old(calls) + Resets(old(readyPools)) + Resets(fullPools[..i])
        invariant setsPerPool == old(setsPerPool) && nextPool == old(nextPool) && ratios == old(ratios)
      {
        assert Resets(fullPools[..i + 1]) == Resets(fullPools[..i]) + [ResetPool(fullPools[i])];
        assert fullPools[..i + 1] == fullPools[..i] + [fullPools[i]];
        calls := calls + [ResetPool(fullPools[i])];
        readyPools := readyPools + [fullPools[i]];
      }
      assert fullPools[..|fullPools|] == fullPools;
      fullPools := [];
      ClearPoolsKeepsPools(old(State()));
    }

    /** `destroy_pools`: destroy every ready pool, then every full pool; keep none. */
    method DestroyPools()
      requires Valid()
      modifies this
      ensures Valid()
      ensures State() == DestroyPoolsSpec(old(State()))
      ensures ratios == old(ratios)
    {
      for i := 0 to |readyPools|
        invariant readyPools == old(readyPools) && fullPools == old(fullPools)
        invariant calls == old(calls) + Destroys(readyPools[..i])
        invariant setsPerPool == old(setsPerPool) && nextPool == old(nextPool) && ratios == old(ratios)
      {
        assert Destroys(readyPools[..i + 1]) == Destroys(readyPools[..i]) + [DestroyPool(readyPools[i])];
        calls := calls + [DestroyPool(readyPools[i])];
      }
      assert readyPools[..|readyPools|] == readyPools;
      readyPools := [];
      for i := 0 to |fullPools|
        invariant readyPools == [] && fullPools == old(fullPools)
        invariant calls == old(calls) + Destroys(old(readyPools)) + Destroys(fullPools[..i])
        invariant setsPerPool == old(setsPerPool) && nextPool == old(nextPool) && ratios == old(ratios)
      {
        assert Destroys(fullPools[..i + 1]) == Destroys(fullPools[..i]) + [DestroyPool(fullPools[i])];
        calls := calls + [DestroyPool(fullPools[i])];
      }
      assert fullPools[..|fullPools|] == fullPools;
      fullPools := [];
    }
  }
}
