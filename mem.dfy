/**
 * The fixed-pool allocator (common/mem.c): seven pools of equal-sized
 * blocks carved from the RAM above the program, each with a singly linked
 * free list whose head is the next block handed out.  Addresses are plain
 * numbers; a free list is the sequence of its block addresses, head first.
 */
module Mem {
  import opened Wrappers
  import Machine

  const NUM_POOLS := 7
  /** MEM_PoolConfig: block sizes, ascending. */
  const POOL_SIZE: seq<nat> := [8, 16, 32, 48, 64, 128, 256]
  /** MEM_PoolConfig: how many blocks each pool is given. */
  const POOL_BLOCKS: seq<nat> := [40, 20, 20, 20, 20, 10, 5]

  datatype Pool = Pool(size: nat, start: nat, free: seq<nat>)

  /**
   * The inner loop of MEM_Init, from the point where the next block would
   * start at ptr, n blocks are still wanted and free is the free list so
   * far: the finished free list and the address after the last block.  It
   * stops early when a block would reach memEnd.
   */
  function Carve(ptr: nat, size: nat, n: nat, memEnd: nat, free: seq<nat>): (r: (seq<nat>, nat))
    ensures r.1 >= ptr && |r.0| <= |free| + n
    decreases n
  {
    if n == 0 || ptr + size >= memEnd then (free, ptr)
    else Carve(ptr + size, size, n - 1, memEnd, [ptr] + free)
  }

  /** The free list is on block boundaries from start, and lies below the point carving has reached. */
  ghost predicate Carved(free: seq<nat>, start: nat, size: nat, ptr: nat)
  {
    size > 0 && forall a :: a in free ==> start <= a < ptr && (a - start) % size == 0
  }

  /** Carving keeps every block of a pool inside the region carved, on a block boundary. */
  lemma {:induction false} CarveInRegion(start: nat, ptr: nat, size: nat, n: nat, memEnd: nat, free: seq<nat>)
    requires size > 0 && start <= ptr && (ptr - start) % size == 0 && Carved(free, start, size, ptr)
    ensures var r := Carve(ptr, size, n, memEnd, free); Carved(r.0, start, size, r.1)
    decreases n
  {
    if !(n == 0 || ptr + size >= memEnd) {
      Machine.ModShift(ptr - start, 1, size);
      CarveInRegion(start, ptr + size, size, n - 1, memEnd, [ptr] + free);
    }
  }

  /** The pools MEM_Init builds from pool i on, starting at address ptr. */
  function InitPools(ptr: nat, memEnd: nat, i: nat): (ps: seq<Pool>)
    requires i <= NUM_POOLS
    ensures |ps| == NUM_POOLS - i && forall j :: 0 <= j < |ps| ==> ps[j].size == POOL_SIZE[i + j]
    decreases NUM_POOLS - i
  {
    if i == NUM_POOLS then []
    else
      var size := POOL_SIZE[i];
      var r := Carve(ptr, size, POOL_BLOCKS[i], memEnd, []);
      [Pool(size, ptr, r.0)] + InitPools(r.1, memEnd, i + 1)
  }

  /** Seven pools with the configured block sizes. */
  predicate Configured(ps: seq<Pool>)
  {
    |ps| == NUM_POOLS && forall i :: 0 <= i < NUM_POOLS ==> ps[i].size == POOL_SIZE[i]
  }

  /**
   * The pool table is laid out as MEM_Init lays it out: the configured
   * sizes, pools in ascending address order, and every free block inside
   * its own pool's region (below the next pool's start) on a block
   * boundary.
   */
  ghost predicate Layout(ps: seq<Pool>)
  {
    Configured(ps)
    && (forall i, j :: 0 <= i < j < NUM_POOLS ==> ps[i].start <= ps[j].start)
    && (forall i, a :: 0 <= i < NUM_POOLS && a in ps[i].free ==> InPool(ps, i, a))
  }

  /** Address a is a block of pool i: on one of its block boundaries and below the next pool. */
  predicate InPool(ps: seq<Pool>, i: nat, a: nat)
    requires Configured(ps) && i < NUM_POOLS
  {
    ps[i].start <= a && (a - ps[i].start) % ps[i].size == 0
    && (i + 1 < NUM_POOLS ==> a < ps[i + 1].start)
  }

  /** Pools built by MEM_Init from ptr on have the configured sizes and ascending starts, from ptr. */
  lemma {:induction false} InitPoolsOrder(ptr: nat, memEnd: nat, i: nat)
    requires i <= NUM_POOLS
    ensures var ps := InitPools(ptr, memEnd, i);
      (forall j :: 0 <= j < |ps| ==> ps[j].start >= ptr)
      && (forall j, k :: 0 <= j < k < |ps| ==> ps[j].start <= ps[k].start)
    decreases NUM_POOLS - i
  {
    if i < NUM_POOLS {
      var r := Carve(ptr, POOL_SIZE[i], POOL_BLOCKS[i], memEnd, []);
      InitPoolsOrder(r.1, memEnd, i + 1);
      assert InitPools(ptr, memEnd, i)[1..] == InitPools(r.1, memEnd, i + 1);
    }
  }

  /** Each pool MEM_Init builds keeps its blocks inside its own region, which ends where the next pool starts. */
  lemma {:induction false} InitPoolsRegions(ptr: nat, memEnd: nat, i: nat)
    requires i <= NUM_POOLS
    ensures var ps := InitPools(ptr, memEnd, i);
      forall j :: 0 <= j < |ps| - 1 ==> Carved(ps[j].free, ps[j].start, ps[j].size, ps[j + 1].start)
    decreases NUM_POOLS - i
  {
    if i < NUM_POOLS {
      var size := POOL_SIZE[i];
      var r := Carve(ptr, size, POOL_BLOCKS[i], memEnd, []);
      InitPoolsRegions(r.1, memEnd, i + 1);
      CarveInRegion(ptr, ptr, size, POOL_BLOCKS[i], memEnd, []);
      var ps := InitPools(ptr, memEnd, i);
      assert ps[1..] == InitPools(r.1, memEnd, i + 1);
      if |ps| > 1 {
        assert Carved(ps[0].free, ps[0].start, ps[0].size, ps[1].start);
      }
    }
  }

  /** The last pool MEM_Init builds keeps its blocks on its block boundaries above its start. */
  lemma LastPoolCarved(ptr: nat, memEnd: nat)
    ensures var p := InitPools(ptr, memEnd, 0)[NUM_POOLS - 1];
      forall a :: a in p.free ==> p.start <= a && (a - p.start) % p.size == 0
  {
    var ps := InitPools(ptr, memEnd, 0);
    var q := ps[NUM_POOLS - 1];
    assert ps[NUM_POOLS - 1..] == InitPools(q.start, memEnd, NUM_POOLS - 1) by {
      LastPoolStart(ptr, memEnd, 0);
    }
    CarveInRegion(q.start, q.start, 256, 5, memEnd, []);
  }

  /** The pools MEM_Init builds from pool i on end with the pools it builds from the last pool's start. */
  lemma {:induction false} LastPoolStart(ptr: nat, memEnd: nat, i: nat)
    requires i < NUM_POOLS
    ensures var ps := InitPools(ptr, memEnd, i);
      ps[|ps| - 1..] == InitPools(ps[|ps| - 1].start, memEnd, NUM_POOLS - 1)
    decreases NUM_POOLS - i
  {
    if i < NUM_POOLS - 1 {
      var r := Carve(ptr, POOL_SIZE[i], POOL_BLOCKS[i], memEnd, []);
      LastPoolStart(r.1, memEnd, i + 1);
      var ps := InitPools(ptr, memEnd, i);
      assert ps[1..] == InitPools(r.1, memEnd, i + 1);
    }
  }

  /** MEM_Init lays the pools out correctly, whatever the memory bounds. */
  lemma InitLayout(memStart: nat, memEnd: nat)
    ensures Layout(InitPools(memStart, memEnd, 0))
  {
    var ps := InitPools(memStart, memEnd, 0);
    InitPoolsOrder(memStart, memEnd, 0);
    forall i, a | 0 <= i < NUM_POOLS && a in ps[i].free
      ensures InPool(ps, i, a)
    {
      InitBlockInPool(memStart, memEnd, i, a);
    }
  }

  /** A block MEM_Init puts on pool i's free list is a block of pool i. */
  lemma InitBlockInPool(memStart: nat, memEnd: nat, i: nat, a: nat)
    requires i < NUM_POOLS && a in InitPools(memStart, memEnd, 0)[i].free
    ensures InPool(InitPools(memStart, memEnd, 0), i, a)
  {
    var ps := InitPools(memStart, memEnd, 0);
    if i + 1 < NUM_POOLS {
      InitPoolsRegions(memStart, memEnd, 0);
      assert Carved(ps[i].free, ps[i].start, ps[i].size, ps[i + 1].start);
    } else {
      LastPoolCarved(memStart, memEnd);
    }
  }

  /** The pool MEM_Alloc takes from: the first one, from i on, whose blocks are big enough and not all in use. */
  function FirstFit(ps: seq<Pool>, n: nat, i: nat): (r: Option<nat>)
    requires i <= |ps|
    ensures r.Some? ==> i <= r.value < |ps| && ps[r.value].size >= n && ps[r.value].free != []
    ensures r.Some? ==> forall j :: i <= j < r.value ==> !(ps[j].size >= n && ps[j].free != [])
    ensures r.None? ==> forall j :: i <= j < |ps| ==> !(ps[j].size >= n && ps[j].free != [])
    decreases |ps| - i
  {
    if i == |ps| then None
    else if ps[i].size >= n && ps[i].free != [] then Some(i)
    else FirstFit(ps, n, i + 1)
  }

  /** The pool MEM_Free returns an address to: the highest pool, at or below i, starting at or below it. */
  function PoolOf(ps: seq<Pool>, a: nat, i: nat): (r: Option<nat>)
    requires i < |ps|
    ensures r.Some? ==> r.value <= i && ps[r.value].start <= a
    ensures r.Some? ==> forall j :: r.value < j <= i ==> a < ps[j].start
    ensures r.None? ==> forall j :: 0 <= j <= i ==> a < ps[j].start
    decreases i
  {
    if a >= ps[i].start then Some(i)
    else if i == 0 then None
    else PoolOf(ps, a, i - 1)
  }

  /** The pool table once pool i's head block is handed out. */
  function TakeHead(ps: seq<Pool>, i: nat): seq<Pool>
    requires i < |ps| && ps[i].free != []
  {
    ps[i := ps[i].(free := ps[i].free[1..])]
  }

  /** The pool table once address a is given back to pool i: rounded down to its block start and pushed on the free list. */
  function PushBlock(ps: seq<Pool>, i: nat, a: nat): seq<Pool>
    requires i < |ps| && ps[i].start <= a && ps[i].size > 0
  {
    var block := a - (a - ps[i].start) % ps[i].size;
    ps[i := ps[i].(free := [block] + ps[i].free)]
  }

  /** The effect of MEM_Free on the pool table: nothing for an address below every pool. */
  function Released(ps: seq<Pool>, a: nat): (qs: seq<Pool>)
    requires Configured(ps)
  {
    match PoolOf(ps, a, NUM_POOLS - 1)
    case None => ps
    case Some(i) => PushBlock(ps, i, a)
  }

  /** Freeing any address keeps the layout: the rounded block lies in the pool it is returned to. */
  lemma FreeKeepsLayout(ps: seq<Pool>, a: nat)
    requires Layout(ps)
    ensures Layout(Released(ps, a))
  {
    match PoolOf(ps, a, NUM_POOLS - 1)
    case None =>
    case Some(i) =>
      var qs := PushBlock(ps, i, a);
      var block := a - (a - ps[i].start) % ps[i].size;
      forall j, b | 0 <= j < NUM_POOLS && b in qs[j].free
        ensures InPool(qs, j, b)
      {
        if j == i && b == block {
          RoundDown(a - ps[i].start, ps[i].size);
        } else {
          assert b in ps[j].free && InPool(ps, j, b);
        }
      }
  }

  /** Rounding an offset down to a multiple of s gives a multiple of s. */
  lemma RoundDown(d: nat, s: nat)
    requires s > 0
    ensures 0 <= d - d % s <= d && (d - d % s) % s == 0
  {
    var q := d / s;
    assert d - d % s == q * s;
    Machine.ModUnique(q * s, q, s, 0);
  }

  /** Allocation keeps the layout. */
  lemma AllocKeepsLayout(ps: seq<Pool>, i: nat)
    requires Layout(ps) && i < |ps| && ps[i].free != []
    ensures Layout(TakeHead(ps, i))
  {
    var qs := TakeHead(ps, i);
    forall j, a | 0 <= j < NUM_POOLS && a in qs[j].free
      ensures InPool(qs, j, a)
    {
      assert a in ps[j].free && InPool(ps, j, a);
    }
  }

  /**
   * Freeing the block just allocated puts the pool table back as it was:
   * the block is found in the pool it came from and is already on a block
   * boundary.
   */
  lemma AllocFreeRoundTrip(ps: seq<Pool>, n: nat)
    requires Layout(ps) && FirstFit(ps, n, 0).Some?
    ensures var i := FirstFit(ps, n, 0).value;
      Released(TakeHead(ps, i), ps[i].free[0]) == ps
  {
    var i := FirstFit(ps, n, 0).value;
    var a := ps[i].free[0];
    AllocKeepsLayout(ps, i);
    var qs := TakeHead(ps, i);
    var r := PoolOf(qs, a, NUM_POOLS - 1);
    assert InPool(ps, i, a);
    if i + 1 < NUM_POOLS {
      assert a < qs[i + 1].start;
    }
    assert r == Some(i);
    assert [a] + ps[i].free[1..] == ps[i].free;
  }

  /** The allocator's pool table (MEM_Pool). */
  class Heap {
    var pools: seq<Pool>

    constructor ()
      ensures pools == []
    {
      pools := [];
    }

    /**
     * MEM_Init: pool after pool, from memStart, carves up to the configured
     * number of blocks, stopping early when the next block would reach
     * memEnd; each block is pushed on its pool's free list.
     */
    method Init(memStart: nat, memEnd: nat)
      modifies this
      ensures pools == InitPools(memStart, memEnd, 0) && Layout(pools)
    {
      var ptr: nat := memStart;
      var built: seq<Pool> := [];
      var i := 0;
      while i < NUM_POOLS
        invariant 0 <= i <= NUM_POOLS
        invariant built + InitPools(ptr, memEnd, i) == InitPools(memStart, memEnd, 0)
      {
        var size := POOL_SIZE[i];
        var free, p := CarvePool(ptr, size, POOL_BLOCKS[i], memEnd);
        assert InitPools(ptr, memEnd, i) == [Pool(size, ptr, free)] + InitPools(p, memEnd, i + 1);
        built := built + [Pool(size, ptr, free)];
        ptr := p;
        i := i + 1;
      }
      pools := built;
      InitLayout(memStart, memEnd);
    }

    /** The inner loop of MEM_Init: carves up to n blocks of the given size from ptr. */
    static method CarvePool(ptr: nat, size: nat, n: nat, memEnd: nat) returns (free: seq<nat>, p: nat)
      ensures (free, p) == Carve(ptr, size, n, memEnd, [])
    {
      free := [];
      p := ptr;
      var b := 0;
      while b < n
        invariant 0 <= b <= n && Carve(ptr, size, n, memEnd, []) == Carve(p, size, n - b, memEnd, free)
      {
        if p + size >= memEnd {
          break;
        }
        free := [p] + free;
        p := p + size;
        b := b + 1;
      }
    }

    /**
     * MEM_Alloc: the head block of the first pool with big enough blocks
     * and a free one; no other pool changes.  None where the firmware
     * panics (out of memory).
     */
    method Alloc(n: nat) returns (r: Option<nat>)
      requires Layout(pools)
      modifies this
      ensures Layout(pools)
      ensures match FirstFit(old(pools), n, 0)
        case None => r.None? && pools == old(pools)
        case Some(i) => r == Some(old(pools)[i].free[0]) && pools == TakeHead(old(pools), i)
    {
      var i := 0;
      while i < NUM_POOLS
        invariant 0 <= i <= NUM_POOLS && FirstFit(pools, n, 0) == FirstFit(pools, n, i)
      {
        if pools[i].size >= n && pools[i].free != [] {
          r := Some(pools[i].free[0]);
          AllocKeepsLayout(pools, i);
          pools := TakeHead(pools, i);
          return;
        }
        i := i + 1;
      }
      r := None;
    }

    /**
     * MEM_Free: gives an address back to the highest pool starting at or
     * below it, rounded down to its block start; an address below every
     * pool is ignored.  A double free is not detected.
     */
    method Free(a: nat)
      requires Layout(pools)
      modifies this
      ensures Layout(pools) && pools == Released(old(pools), a)
    {
      FreeKeepsLayout(pools, a);
      var i := NUM_POOLS - 1;
      while a < pools[i].start
        invariant 0 <= i < NUM_POOLS && PoolOf(pools, a, NUM_POOLS - 1) == PoolOf(pools, a, i)
        decreases i
      {
        if i == 0 {
          return;
        }
        i := i - 1;
      }
      var offset := (a - pools[i].start) % pools[i].size;
      var block := a - offset;
      pools := pools[i := pools[i].(free := [block] + pools[i].free)];
    }
  }
}
