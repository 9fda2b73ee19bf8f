/** sys_malloc and sys_free of kernel/memory.c for kernel threads, over the page manager. */
module Slab {
  import opened Outcomes
  import opened Pages
  import opened KernelPages
  import opened Bitmaps
  import opened SlabInv
  import opened SlabSteps
  import opened FreeLists

  /** struct mem_block_desc but for its free list */
  datatype Desc = Desc(blockSize: nat, blocksPerArena: nat)

  /** A block taken off a free list. */
  lemma OneOut(q: seq<nat>, k: nat)
    requires NoDup(q) && k < |q|
    ensures NoDup(q[..k] + q[k + 1..]) && forall c :: c in q[..k] + q[k + 1..] <==> c in q && c != q[k]
  {
    var r := q[..k] + q[k + 1..];
    forall c | c in q && c != q[k] ensures c in r {
      var i :| 0 <= i < |q| && q[i] == c;
      assert r[if i < k then i else i - 1] == c;
    }
  }

  /** The frames behind the pages that are mapped in `pte0` and no longer in `pte`. */
  ghost function Gone(pte0: map<nat, nat>, pte: map<nat, nat>): set<nat> {
    set u | u in pte0 && u !in pte :: pte0[u]
  }

  /** Pages have been unmapped, and exactly their frames are free again. */
  ghost predicate GivesBack(pte0: map<nat, nat>, used0: set<nat>, pte: map<nat, nat>, used: set<nat>) {
    (forall u :: u in pte ==> u in pte0 && pte[u] == pte0[u]) && used == used0 - Gone(pte0, pte)
  }

  /** Pages have been mapped, to frames that were free, and these and the frames of new tables are taken. */
  ghost predicate Takes(pte0: map<nat, nat>, pde0: map<nat, nat>, used0: set<nat>, pte: map<nat, nat>,
                        pde: map<nat, nat>, used: set<nat>) {
    && (forall u :: u in pte0 ==> u in pte && pte[u] == pte0[u]) && TablesAdded(pde0, pde)
    && used == used0 + Gone(pte, pte0) + NewTables(pde0, pde)
    && used0 !! Gone(pte, pte0) && used0 !! NewTables(pde0, pde)
  }

  lemma RunGivenBack(pte0: map<nat, nat>, used0: set<nat>, pte: map<nat, nat>, used: set<nat>, v: nat, cnt: nat)
    requires forall u :: v <= u < v + cnt ==> u in pte0
    requires forall u :: u in pte <==> u in pte0 && !(v <= u < v + cnt)
    requires forall u :: u in pte ==> pte[u] == pte0[u]
    requires used == used0 - Behind(pte0, v, cnt)
    ensures GivesBack(pte0, used0, pte, used)
  {
    forall f ensures f in Gone(pte0, pte) <==> f in Behind(pte0, v, cnt) {
      if f in Gone(pte0, pte) {
        var u :| u in pte0 && u !in pte && pte0[u] == f;
        assert v <= u < v + cnt;
      }
      if f in Behind(pte0, v, cnt) {
        var u :| v <= u < v + cnt && pte0[u] == f;
        assert u in pte0 && u !in pte;
      }
    }
  }

  lemma RunTaken(pte0: map<nat, nat>, pde0: map<nat, nat>, used0: set<nat>, pte: map<nat, nat>, pde: map<nat, nat>,
                 used: set<nat>, v: nat, cnt: nat)
    requires MapsRun(pte0, pde0, used0, pte, pde, used, v, cnt)
    ensures Takes(pte0, pde0, used0, pte, pde, used)
  {
    forall f ensures f in Gone(pte, pte0) <==> f in Behind(pte, v, cnt) {
      if f in Gone(pte, pte0) {
        var u :| u in pte && u !in pte0 && pte[u] == f;
        assert v <= u < v + cnt;
      }
      if f in Behind(pte, v, cnt) {
        var u :| v <= u < v + cnt && pte[u] == f;
        assert u in pte && u !in pte0;
      }
    }
  }

  lemma NothingMoves(pte: map<nat, nat>, pde: map<nat, nat>, used: set<nat>)
    ensures GivesBack(pte, used, pte, used) && Takes(pte, pde, used, pte, pde, used)
  {
    assert Gone(pte, pte) == {} && NewTables(pde, pde) == {};
  }

  /** Mapping pages and unmapping the same pages again gives all frames back but those of new tables. */
  lemma FramesBack(pte0: map<nat, nat>, pde0: map<nat, nat>, used0: set<nat>, pte1: map<nat, nat>, pde: map<nat, nat>,
                   used1: set<nat>, pte: map<nat, nat>, used: set<nat>)
    requires Takes(pte0, pde0, used0, pte1, pde, used1) && GivesBack(pte1, used1, pte, used) && pte.Keys == pte0.Keys
    requires forall u, d :: u in pte1 && d in pde ==> pte1[u] != pde[d]
    ensures pte == pte0 && TablesAdded(pde0, pde) && used == used0 + NewTables(pde0, pde)
  {
    assert Gone(pte1, pte) == Gone(pte1, pte0);
    assert NewTables(pde0, pde) !! Gone(pte1, pte0);
  }

  /** The smallest class that has room for `size` bytes. */
  function ClassOf(size: nat): (d: nat)
    requires size <= 1024
    ensures d < DESC_CNT && size <= BlockSize(d) && forall e :: 0 <= e < d ==> BlockSize(e) < size
  {
    if size <= 16 then 0 else if size <= 32 then 1 else if size <= 64 then 2 else if size <= 128 then 3
    else if size <= 256 then 4 else if size <= 512 then 5 else 6
  }

  ghost predicate DescsOk(ds: seq<Desc>) {
    |ds| == DESC_CNT && forall d :: 0 <= d < DESC_CNT ==>
      ds[d].blockSize == BlockSize(d) && ds[d].blocksPerArena == BlocksPer(d)
  }

  /** block_desc_init */
  method BlockDescInit(descs: array<Desc>) returns (free: BlockLists)
    requires descs.Length == DESC_CNT
    modifies descs
    ensures DescsOk(descs[..])
    ensures fresh(free) && fresh(free.repr) && free.Valid() && free.Frees() == seq(DESC_CNT, _ => [])
  {
    var d, blockSize := 0, 16;
    while d < DESC_CNT
      invariant 0 <= d <= DESC_CNT
      invariant d < DESC_CNT ==> blockSize == BlockSize(d)
      invariant forall e :: 0 <= e < d ==> descs[e] == Desc(BlockSize(e), BlocksPer(e))
    {
      descs[d] := Desc(blockSize, (PG_SIZE - ARENA_HEADER) / blockSize);
      blockSize := blockSize * 2;
      d := d + 1;
    }
    free := new BlockLists();
  }

  class Heap {
    const mem: Memory
    const poolSize: nat        // kernel_pool.pool_size
    const descs: array<Desc>   // k_block_descs
    const free: BlockLists     // their free lists
    var arenas: map<nat, Arena>    // the headers, by page address
    ghost var live: map<nat, nat>  // what callers hold, with the size asked for

    ghost function Abs(): View
      requires free.Valid()
      reads this, free, free.repr, mem.dir
    {
      View(arenas, free.Frees(), live, mem.dir.pte.Keys)
    }

    /** Descriptors, free lists and the page manager's tables share no memory. */
    ghost predicate Apart()
      reads free
    {
      && descs as object != mem.kernelVaddr.bits
      && descs as object != mem.kernelPool.bitmap.bits
      && descs as object != mem.userPool.bitmap.bits
      && this !in free.repr && descs !in free.repr && mem.dir !in free.repr && mem.kernelVaddr.bits !in free.repr
      && mem.kernelPool.bitmap.bits !in free.repr && mem.userPool.bitmap.bits !in free.repr
    }

    /** All but that no arena is left with all its blocks free. */
    ghost predicate Sound()
      reads this, descs, free, free.repr, mem.dir, mem.kernelVaddr.bits, mem.kernelPool.bitmap.bits
    {
      && mem.Valid() && free.Valid() && Apart() && DescsOk(descs[..]) && poolSize <= 65535 * PG_SIZE
      && Inv(Abs())
    }

    ghost predicate Valid()
      reads this, descs, free, free.repr, mem.dir, mem.kernelVaddr.bits, mem.kernelPool.bitmap.bits
    {
      Sound() && Settled(Abs())
    }

    constructor (mem: Memory, poolSize: nat)
      requires mem.Valid() && poolSize <= 65535 * PG_SIZE
      ensures Valid() && this.mem == mem && this.poolSize == poolSize && live == map[]
      ensures fresh(descs) && fresh(free) && fresh(free.repr)
    {
      hide Inv, Settled, DescsOk, Memory.Valid, BlockLists.Valid, BlockLists.Frees;
      this.mem, this.poolSize := mem, poolSize;
      var ds := new Desc[DESC_CNT](_ => Desc(0, 0));
      var fl := BlockDescInit(ds);
      descs, free := ds, fl;
      arenas, live := map[], map[];
      new;
      NoArena(Abs());
    }

    lemma PoolOk()
      requires mem.Valid()
      ensures mem.kernelPool.Valid()
    {
    }

    /** Without arenas there is nothing to keep. */
    lemma NoArena(x: View)
      requires x.arenas == map[] && x.free == seq(DESC_CNT, _ => []) && x.live == map[]
      ensures Inv(x) && Settled(x)
    {
    }

    /** The loop over the size classes. */
    method FindClass(size: nat) returns (d: nat)
      requires DescsOk(descs[..]) && size <= 1024
      ensures d == ClassOf(size)
    {
      d := 0;
      while d < DESC_CNT && !(size <= descs[d].blockSize)
        invariant 0 <= d <= DESC_CNT
        invariant forall e :: 0 <= e < d ==> BlockSize(e) < size
      {
        d := d + 1;
      }
      assert d == DESC_CNT ==> BlockSize(6) < size;
    }

    /** Pages that a request of `size` bytes takes from the page manager. */
    function PagesFor(size: nat): nat {
      if size > 1024 then (size + ARENA_HEADER + PG_SIZE - 1) / PG_SIZE else 1
    }

    /** They have room for the header and the bytes, and one page less would not. */
    lemma PagesForLeast(size: nat)
      requires size > 1024
      ensures (PagesFor(size) - 1) * PG_SIZE < ARENA_HEADER + size <= PagesFor(size) * PG_SIZE
    {
    }

    /** No block on a free list serves a request of `size` bytes. */
    ghost predicate NeedsPages(size: nat)
      requires free.Valid()
      reads this, free, free.repr
    {
      0 < size < poolSize && (size > 1024 || free.Frees()[ClassOf(size)] == [])
    }

    /** A block off a free list: the first of its class, one less in its arena, all else as it was. */
    ghost predicate FromList(x: View, x': View, d: nat)
      requires d < DESC_CNT
    {
      && |x.free| == |x'.free| == DESC_CNT && x.free[d] != [] && x'.free == x.free[d := x.free[d][1..]]
      && var p := Page(x.free[d][0]);
         && p in x.arenas && x.arenas[p].kind == Small(d) && x.arenas[p].cnt > 0
         && x'.arenas == x.arenas[p := Arena(Small(d), x.arenas[p].cnt - 1)]
    }

    /** The first block of a new arena: the others are the class's free blocks, in the order of their addresses. */
    ghost predicate FromPage(x: View, x': View, p: nat, d: nat)
      requires d < DESC_CNT
    {
      && |x.free| == |x'.free| == DESC_CNT && p !in x.arenas
      && x'.arenas == x.arenas[p := Arena(Small(d), BlocksPer(d) - 1)]
      && x'.free == x.free[d := BlocksOf(p, d, BlocksPer(d))[1..]]
    }

    method SysMalloc(size: nat) returns (r: Outcome<nat>)
      requires Valid()
      modifies this, free, free.repr, mem.dir, mem.kernelPool.bitmap.bits, mem.kernelVaddr.bits
      ensures r == Halted <==> old(NeedsPages(size) && mem.PagesHalt(PagesFor(size)))
      ensures r == Null <==> !(0 < size < poolSize) || old(NeedsPages(size) && mem.NoRun(PagesFor(size)))
      ensures r != Halted ==> Valid()
      ensures fresh(free.repr - old(free.repr))
      ensures r.Done? ==> 0 < size < poolSize && r.value !in old(live) && live == old(live)[r.value := size]
      ensures r == Null ==> Abs() == old(Abs()) && unchanged(mem.dir, mem.kernelPool.bitmap.bits, mem.kernelVaddr.bits)
      ensures r.Done? ==> Takes(old(mem.dir.pte), old(mem.dir.pde), old(mem.kernelPool.Used()),
                                mem.dir.pte, mem.dir.pde, mem.kernelPool.Used())
      ensures 0 < size < poolSize && size <= 1024 && old(free.Frees()[ClassOf(size)]) != [] ==>
        && r == Done(old(free.Frees()[ClassOf(size)][0])) && mem.dir.pte == old(mem.dir.pte)
        && FromList(old(Abs()), Abs(), ClassOf(size))
      ensures r.Done? && size <= 1024 && old(free.Frees()[ClassOf(size)]) == [] ==>
        && r.value == Block(Page(r.value), ClassOf(size), 0)
        && FromPage(old(Abs()), Abs(), Page(r.value), ClassOf(size))
        && mem.dir.pte.Keys == old(mem.dir.pte.Keys) + RunPages(Page(r.value), 1)
        && old(mem.dir.pte.Keys) !! RunPages(Page(r.value), 1)
      ensures r.Done? && size > 1024 ==>
        && r.value == Page(r.value) + ARENA_HEADER && Page(r.value) !in old(arenas)
        && arenas == old(arenas)[Page(r.value) := Arena(Large, PagesFor(size))] && free.Frees() == old(free.Frees())
        && mem.dir.pte.Keys == old(mem.dir.pte.Keys) + RunPages(Page(r.value), PagesFor(size))
        && old(mem.dir.pte.Keys) !! RunPages(Page(r.value), PagesFor(size))
    {
      hide Inv, Settled, Memory.Valid, Page, BlocksPer, BlockSize, BlockLists.Valid, BlockLists.Frees, Takes, FromList,
        FromPage, Memory.PagesHalt, Memory.NoRun, Block, BlocksOf, RunPages;
      if !(size > 0 && size < poolSize) {
        return Null;
      }
      if size > 1024 {
        r := MallocLarge(size);
        return;
      }
      var d := FindClass(size);
      r := MallocSmall(size, d);
    }

    /** The branch for a size class: the first free block, from a new arena if there is none. */
    method MallocSmall(size: nat, d: nat) returns (r: Outcome<nat>)
      requires Valid() && size <= 1024 && d == ClassOf(size)
      modifies this, free, free.repr, mem.dir, mem.kernelPool.bitmap.bits, mem.kernelVaddr.bits
      ensures r == Halted <==> old(free.Frees()[d] == [] && mem.PagesHalt(1))
      ensures r == Null <==> old(free.Frees()[d] == [] && mem.NoRun(1))
      ensures r != Halted ==> Valid()
      ensures fresh(free.repr - old(free.repr))
      ensures r.Done? ==> r.value !in old(live) && live == old(live)[r.value := size]
      ensures r == Null ==> Abs() == old(Abs()) && unchanged(mem.dir, mem.kernelPool.bitmap.bits, mem.kernelVaddr.bits)
      ensures r.Done? ==> Takes(old(mem.dir.pte), old(mem.dir.pde), old(mem.kernelPool.Used()),
                                mem.dir.pte, mem.dir.pde, mem.kernelPool.Used())
      ensures old(free.Frees()[d]) != [] ==>
        r == Done(old(free.Frees()[d][0])) && mem.dir.pte == old(mem.dir.pte) && FromList(old(Abs()), Abs(), d)
      ensures r.Done? && old(free.Frees()[d]) == [] ==>
        && r.value == Block(Page(r.value), d, 0) && FromPage(old(Abs()), Abs(), Page(r.value), d)
        && mem.dir.pte.Keys == old(mem.dir.pte.Keys) + RunPages(Page(r.value), 1)
        && old(mem.dir.pte.Keys) !! RunPages(Page(r.value), 1)
    {
      hide Inv, Settled, Memory.Valid, Page, BlocksPer, BlockSize, BlockLists.Valid, BlockLists.Frees, Takes, FromList,
        FromPage, Memory.PagesHalt, Memory.NoRun, Block, BlocksOf;
      PoolOk();
      NothingMoves(mem.dir.pte, mem.dir.pde, mem.kernelPool.Used());
      var empty := free.Empty(d);
      if empty {
        r := NewArena(d);
        if !r.Done? {
          return;
        }
        FirstBlock(r.value, d);
        StockTaken(old(Abs()), r.value, d);
      } else {
        SettledAll(Abs(), Page(free.Frees()[d][0]));
      }
      r := PopBlock(d, size);
    }

    /** A new arena's blocks less the first. */
    lemma StockTaken(x: View, p: nat, d: nat)
      requires d < DESC_CNT && |x.free| == DESC_CNT && x.free[d] == [] && p !in x.arenas
      requires var q := BlocksOf(p, d, BlocksPer(d)); q != [] && Page(q[0]) == p
      ensures forall x' :: FromList(Stock(x, p, d), x', d) ==> FromPage(x, x', p, d)
    {
      var q := BlocksOf(p, d, BlocksPer(d));
      assert x.free[d] + q == q;
      assert x.free[d := q][d := q[1..]] == x.free[d := q[1..]];
    }

    lemma SettledAll(x: View, p: nat)
      requires Settled(x)
      ensures SettledBut(x, p)
    {
    }

    lemma FirstBlock(p: nat, d: nat)
      requires p % PG_SIZE == 0 && d < DESC_CNT
      ensures var q := BlocksOf(p, d, BlocksPer(d)); q != [] && q[0] == Block(p, d, 0) && Page(q[0]) == p
    {
      BlockLayout(p, d, 0, 0);
    }

    method MallocLarge(size: nat) returns (r: Outcome<nat>)
      requires Valid() && 1024 < size < poolSize
      modifies this, mem.dir, mem.kernelPool.bitmap.bits, mem.kernelVaddr.bits
      ensures r == Halted <==> old(mem.PagesHalt(PagesFor(size)))
      ensures r == Null <==> old(mem.NoRun(PagesFor(size)))
      ensures r != Halted ==> Valid()
      ensures r.Done? ==> r.value !in old(live) && live == old(live)[r.value := size]
      ensures r.Done? ==>
        && r.value == Page(r.value) + ARENA_HEADER && Page(r.value) !in old(arenas)
        && arenas == old(arenas)[Page(r.value) := Arena(Large, PagesFor(size))]
        && mem.dir.pte.Keys == old(mem.dir.pte.Keys) + RunPages(Page(r.value), PagesFor(size))
        && old(mem.dir.pte.Keys) !! RunPages(Page(r.value), PagesFor(size))
      ensures r == Null ==> Abs() == old(Abs()) && unchanged(mem.dir, mem.kernelPool.bitmap.bits, mem.kernelVaddr.bits)
      ensures r.Done? ==> Takes(old(mem.dir.pte), old(mem.dir.pde), old(mem.kernelPool.Used()),
                                mem.dir.pte, mem.dir.pde, mem.kernelPool.Used())
    {
      hide ArenasOk, FreeOk, CountsOk, LiveOk, Settled, Memory.Valid, PagesAdded, TablesAdded, NewTables, Behind,
        Page;
      hide RunPages, BlocksOf, BlocksPer, ScanSpec, Memory.Base, Memory.RunSet, FreeRun, BlockLists.Valid,
        BlockLists.Frees;
      hide Inv, DescsOk, Needed, Block, Memory.Shape, PageDir.Valid;
      var pages := (size + ARENA_HEADER + PG_SIZE - 1) / PG_SIZE;
      PoolOk();
      ghost var x := Abs();
      r := mem.MallocPage(pages);
      if !r.Done? {
        return;
      }
      var p := r.value;
      RunIsPages(old(mem.dir.pte), mem.dir.pte, p, pages);
      RunTaken(old(mem.dir.pte), old(mem.dir.pde), old(mem.kernelPool.Used()), mem.dir.pte, mem.dir.pde,
               mem.kernelPool.Used(), Vpn(p), pages);
      NewPage(x, p, pages);
      AddLargeKeeps(x, p, pages, size);
      AddLargeSettled(x, p, pages, size);
      arenas := arenas[p := Arena(Large, pages)];
      live := live[p + ARENA_HEADER := size];
      assert Abs() == AddLarge(x, p, pages, size);
      HeaderPage(p);
      assert Page(p + ARENA_HEADER) == p;
      r := Done(p + ARENA_HEADER);
    }

    lemma RunIsPages(pte0: map<nat, nat>, pte: map<nat, nat>, p: nat, cnt: nat)
      requires PagesAdded(pte0, pte, Vpn(p), cnt)
      ensures pte.Keys == pte0.Keys + RunPages(p, cnt) && pte0.Keys !! RunPages(p, cnt)
    {
      assert forall v: nat :: v in RunPages(p, cnt) <==> Vpn(p) <= v < Vpn(p) + cnt by {
        assert forall v: nat :: InRun(v, p) <==> Vpn(p) <= v;
      }
    }

    /** A page turned into an arena of class d, its blocks appended to the empty free list. */
    method NewArena(d: nat) returns (r: Outcome<nat>)
      requires Valid() && d < DESC_CNT && free.Frees()[d] == []
      modifies this`arenas, free, free.repr, mem.dir, mem.kernelPool.bitmap.bits, mem.kernelVaddr.bits
      ensures r == Halted <==> old(mem.PagesHalt(1))
      ensures r == Null <==> old(mem.NoRun(1))
      ensures fresh(free.repr - old(free.repr))
      ensures r != Halted ==> Sound()
      ensures r == Null ==> Valid() && Abs() == old(Abs())
      ensures r == Null ==> unchanged(mem.dir, mem.kernelPool.bitmap.bits, mem.kernelVaddr.bits)
      ensures r.Done? ==> Takes(old(mem.dir.pte), old(mem.dir.pde), old(mem.kernelPool.Used()),
                                mem.dir.pte, mem.dir.pde, mem.kernelPool.Used())
      ensures r.Done? ==>
        && Abs() == Stock(old(Abs()), r.value, d)
        && r.value % PG_SIZE == 0 && free.Frees()[d] == BlocksOf(r.value, d, BlocksPer(d)) && r.value !in old(arenas)
        && SettledBut(Abs(), r.value) && old(mem.dir.pte.Keys) !! RunPages(r.value, 1)
    {
      hide ArenasOk, FreeOk, CountsOk, LiveOk, Settled, Memory.Valid, PagesAdded, TablesAdded, NewTables, Behind,
        Page;
      hide RunPages, BlocksOf, BlocksPer, ScanSpec, Memory.Base, Memory.RunSet, FreeRun, BlockLists.Valid,
        BlockLists.Frees;
      PoolOk();
      ghost var x := Abs();
      r := mem.MallocPage(1);
      if !r.Done? {
        return;
      }
      var p := r.value;
      RunIsPages(old(mem.dir.pte), mem.dir.pte, p, 1);
      RunTaken(old(mem.dir.pte), old(mem.dir.pde), old(mem.kernelPool.Used()), mem.dir.pte, mem.dir.pde,
               mem.kernelPool.Used(), Vpn(p), 1);
      NewPage(x, p, 1);
      StockKeeps(x, p, d);
      StockSettled(x, p, d);
      arenas := arenas[p := Arena(Small(d), descs[d].blocksPerArena)];
      var ok := AppendBlocks(p, d);
      if !ok {
        assert false;
      }
      assert x.free[d] + BlocksOf(p, d, BlocksPer(d)) == BlocksOf(p, d, BlocksPer(d));
      assert Abs().free == Stock(x, p, d).free;
      assert Abs() == Stock(x, p, d);
    }

    /** The loop that links a new arena's blocks, with its assertion that none is linked yet. */
    method AppendBlocks(p: nat, d: nat) returns (ok: bool)
      requires p % PG_SIZE == 0 && d < DESC_CNT && DescsOk(descs[..]) && free.Valid() && Apart()
      requires free.Frees()[d] == [] && forall e, b :: 0 <= e < DESC_CNT && b in free.Frees()[e] ==> Page(b) != p
      modifies free, free.repr
      ensures ok && free.Valid() && fresh(free.repr - old(free.repr))
      ensures free.Frees() == old(free.Frees())[d := BlocksOf(p, d, BlocksPer(d))]
    {
      hide BlockLists.Valid, BlockLists.Frees, Page, Block;
      ghost var was := free.Frees();
      var i := 0;
      while i < descs[d].blocksPerArena
        invariant 0 <= i <= BlocksPer(d) && free.Valid() && fresh(free.repr - old(free.repr)) && Apart()
        invariant free.Frees() == was[d := BlocksOf(p, d, i)]
        decreases BlocksPer(d) - i
      {
        var b := p + ARENA_HEADER + i * descs[d].blockSize;
        ArenaBlock(p, d, i);
        var found := free.Find(d, b);
        if found {
          assert false;
          return false;
        }
        free.Append(d, b);
        i := i + 1;
      }
      ok := true;
    }

    /** Block i of the page, which is none of those before it. */
    lemma ArenaBlock(p: nat, d: nat, i: nat)
      requires p % PG_SIZE == 0 && d < DESC_CNT && i < BlocksPer(d)
      ensures p + ARENA_HEADER + i * BlockSize(d) == Block(p, d, i) && Page(Block(p, d, i)) == p
      ensures Block(p, d, i) !in BlocksOf(p, d, i)
    {
      BlockLayout(p, d, i, i);
      if Block(p, d, i) in BlocksOf(p, d, i) {
        var j :| 0 <= j < i && BlocksOf(p, d, i)[j] == Block(p, d, i);
        BlockLayout(p, d, j, i);
      }
    }

    method PopBlock(d: nat, size: nat) returns (r: Outcome<nat>)
      requires Sound() && d < DESC_CNT && free.Frees()[d] != [] && size <= BlockSize(d)
      requires SettledBut(Abs(), Page(free.Frees()[d][0]))
      modifies this, free, free.repr
      ensures Valid() && free.repr == old(free.repr)
      ensures r == Done(old(free.Frees()[d][0])) && r.value !in old(live) && live == old(live)[r.value := size]
      ensures FromList(old(Abs()), Abs(), d)
    {
      hide ArenasOk, FreeOk, CountsOk, LiveOk, Settled, Memory.Valid, Page, IsBlock, BlockLists.Valid,
        BlockLists.Frees;
      ghost var x := Abs();
      TakeDefined(x, d);
      TakeKeeps(x, d, size);
      TakeSettled(x, d, size);
      var b := free.Pop(d);
      var a := arenas[Page(b)];
      arenas := arenas[Page(b) := a.(cnt := a.cnt - 1)];
      live := live[b := size];
      assert Abs() == Take(x, d, size);
      r := Done(b);
    }

    /** sys_free of a pointer that is live. None of its assertions fails, and the page of a small
        block goes back exactly when nothing else in it is live. */
    /** The blocks of a list that are in other pages, in their order. */
    function Others(q: seq<nat>, p: nat): seq<nat> {
      if q == [] then [] else (if Page(q[0]) == p then [] else [q[0]]) + Others(q[1..], p)
    }

    /** A small block given back: last on its class's list, with its arena counting one more; or, when nothing else in
        the page is live, no block of the page is on the list any more and the arena is gone. */
    ghost predicate Returned(x: View, x': View, b: nat, d: nat)
      requires d < DESC_CNT
    {
      && |x.free| == |x'.free| == DESC_CNT && Page(b) in x.arenas
      && (if Page(b) in x'.arenas then
            && x'.arenas == x.arenas[Page(b) := Arena(Small(d), x.arenas[Page(b)].cnt + 1)]
            && x'.free == x.free[d := x.free[d] + [b]]
          else x'.arenas == x.arenas - {Page(b)} && x'.free == x.free[d := Others(x.free[d], Page(b))])
    }

    /** sys_free of a pointer that is live. None of its assertions fails, and the page of a small
        block goes back exactly when nothing else in it is live. */
    method SysFree(b: nat) returns (ok: bool)
      requires Valid() && b in live
      modifies this, free, free.repr, mem.dir`pte, mem.kernelPool.bitmap.bits, mem.userPool.bitmap.bits,
        mem.kernelVaddr.bits
      ensures ok && Valid() && live == old(live) - {b} && fresh(free.repr - old(free.repr))
      ensures Page(b) in old(arenas) && arenas.Keys == old(arenas.Keys) - (if Page(b) in arenas then {} else {Page(b)})
      ensures match old(arenas)[Page(b)].kind
        case Large => free.Frees() == old(free.Frees()) && arenas == old(arenas) - {Page(b)}
        case Small(d) => d < DESC_CNT && Returned(old(Abs()), Abs(), b, d)
      ensures mem.dir.pte.Keys == old(mem.dir.pte.Keys) -
        (if Page(b) in arenas then {} else RunPages(Page(b), PageCount(old(arenas)[Page(b)])))
      ensures GivesBack(old(mem.dir.pte), old(mem.kernelPool.Used()), mem.dir.pte, mem.kernelPool.Used())
      ensures unchanged(mem.userPool.bitmap.bits)
      ensures Page(b) in arenas <==> exists c :: c in live && Page(c) == Page(b)
    {
      hide ArenasOk, FreeOk, CountsOk, LiveOk, Settled, Memory.Valid, Page, IsBlock, RunPages, BlocksPer;
      ghost var x := Abs();
      LiveRoom(x, b);
      HeapStart(x, b);
      if b < mem.vaddrStart {
        return false;
      }
      var a := arenas[Page(b)];
      match a.kind {
        case Large => ok := FreeLarge(b);
        case Small(d) => ok := FreeSmall(b, d);
      }
      KeptIffLive(Abs(), Page(b));
    }

    lemma InPage(p: nat, d: nat, i: nat)
      requires p % PG_SIZE == 0 && d < DESC_CNT && i < BlocksPer(d)
      ensures Page(Block(p, d, i)) == p
    {
      BlockLayout(p, d, i, i);
    }

    /** A block of the page itself does not count. */
    lemma {:induction false} OthersLess(q: seq<nat>, k: nat, p: nat)
      requires k < |q| && Page(q[k]) == p
      ensures Others(q[..k] + q[k + 1..], p) == Others(q, p)
    {
      hide Page;
      if k == 0 {
        assert q[..0] + q[1..] == q[1..];
      } else {
        var r := q[..k] + q[k + 1..];
        assert r[1..] == q[1..][..k - 1] + q[1..][k..];
        OthersLess(q[1..], k - 1, p);
      }
    }

    lemma OthersWithout(q: seq<nat>, b: nat, p: nat)
      requires Page(b) == p
      ensures Others(q + [b], p) == Others(q, p)
    {
      OthersLess(q + [b], |q|, p);
      assert (q + [b])[..|q|] + (q + [b])[|q| + 1..] == q;
    }

    lemma {:induction false} OthersNone(q: seq<nat>, p: nat)
      requires forall c :: c in q ==> Page(c) == p
      ensures Others(q, p) == []
    {
      hide Page;
      if q == [] {
      } else {
        OthersNone(q[1..], p);
      }
    }

    lemma {:induction false} OthersAll(q: seq<nat>, p: nat)
      requires forall c :: c in q ==> Page(c) != p
      ensures Others(q, p) == q
    {
      hide Page;
      if q == [] {
      } else {
        OthersAll(q[1..], p);
      }
    }

    lemma HeapStart(x: View, b: nat)
      requires Valid() && x == Abs() && b in live && LiveAt(x, b)
      ensures b >= mem.vaddrStart
    {
      hide FreeOk, CountsOk, LiveOk, Settled;
      var p: nat := Page(b);
      assert InArena(Vpn(p), p, x.arenas[p]) by {
        assert ArenaOk(p, x.arenas[p]);
      }
      assert Vpn(p) in mem.dir.pte;
      assert mem.BitsMatch();
      assert p >= mem.vaddrStart by {
        assert mem.vaddrStart == mem.Base() * PG_SIZE && p == Vpn(p) * PG_SIZE;
      }
    }

    method FreeLarge(b: nat) returns (ok: bool)
      requires Valid() && b in live && LiveAt(Abs(), b) && arenas[Page(b)].kind.Large?
      modifies this, mem.dir`pte, mem.kernelPool.bitmap.bits, mem.userPool.bitmap.bits, mem.kernelVaddr.bits
      ensures ok && Valid() && Abs() == DropLarge(old(Abs()), Page(b)) && b == Page(b) + ARENA_HEADER
      ensures GivesBack(old(mem.dir.pte), old(mem.kernelPool.Used()), mem.dir.pte, mem.kernelPool.Used())
      ensures unchanged(mem.userPool.bitmap.bits)
    {
      hide ArenasOk, FreeOk, CountsOk, LiveOk, Settled, Memory.Valid, Memory.RunSet, Behind, BlockLists.Valid,
        BlockLists.Frees;
      PoolOk();
      ghost var x, pte, used := Abs(), mem.dir.pte, mem.kernelPool.Used();
      var p := b / PG_SIZE * PG_SIZE;
      var a := arenas[p];
      RunMapped(x, p);
      ok := mem.MfreePage(p, a.cnt);
      RunGone(pte, mem.dir.pte, p, a.cnt);
      RunGivenBack(pte, used, mem.dir.pte, mem.kernelPool.Used(), Vpn(p), a.cnt);
      DropLargeKeeps(x, p);
      DropLargeSettled(x, p);
      arenas, live := arenas - {p}, live - {b};
      assert Abs() == DropLarge(x, p);
    }

    /** The pages of an arena are mapped. */
    lemma RunMapped(x: View, p: nat)
      requires ArenasOk(x) && p in x.arenas
      ensures ArenaOk(p, x.arenas[p])
      ensures forall u :: Vpn(p) <= u < Vpn(p) + PageCount(x.arenas[p]) ==> u in x.pages
    {
      assert forall u: nat :: Vpn(p) <= u < Vpn(p) + PageCount(x.arenas[p]) ==> InArena(u, p, x.arenas[p]);
    }

    lemma RunGone(pte0: map<nat, nat>, pte: map<nat, nat>, p: nat, cnt: nat)
      requires forall u :: u in pte <==> u in pte0 && !(Vpn(p) <= u < Vpn(p) + cnt)
      ensures pte.Keys == pte0.Keys - RunPages(p, cnt)
    {
      assert forall v: nat :: v in RunPages(p, cnt) <==> Vpn(p) <= v < Vpn(p) + cnt by {
        assert forall v: nat :: InRun(v, p) <==> Vpn(p) <= v;
      }
    }

    method FreeSmall(b: nat, d: nat) returns (ok: bool)
      requires Valid() && b in live && LiveAt(Abs(), b) && arenas[Page(b)].kind == Small(d)
      modifies this, free, free.repr, mem.dir`pte, mem.kernelPool.bitmap.bits, mem.userPool.bitmap.bits,
        mem.kernelVaddr.bits
      ensures ok && Valid() && live == old(live) - {b} && fresh(free.repr - old(free.repr))
      ensures arenas.Keys == old(arenas.Keys) - (if Page(b) in arenas then {} else {Page(b)})
      ensures mem.dir.pte.Keys == old(mem.dir.pte.Keys) - (if Page(b) in arenas then {} else RunPages(Page(b), 1))
      ensures d < DESC_CNT && Returned(old(Abs()), Abs(), b, d)
      ensures GivesBack(old(mem.dir.pte), old(mem.kernelPool.Used()), mem.dir.pte, mem.kernelPool.Used())
      ensures unchanged(mem.userPool.bitmap.bits)
    {
      hide ArenasOk, FreeOk, CountsOk, LiveOk, Settled, Memory.Valid, Page, RunPages, IsBlock, BlockLists.Valid,
        BlockLists.Frees, Returned, Others, GivesBack, Gone;
      ghost var x := Abs();
      PoolOk();
      NothingMoves(mem.dir.pte, mem.dir.pde, mem.kernelPool.Used());
      var p := Page(b);
      GiveKeeps(x, b);
      GiveSettled(x, b);
      LiveNotFree(x, b);
      free.Append(d, b);
      arenas := arenas[p := arenas[p].(cnt := arenas[p].cnt + 1)];
      live := live - {b};
      assert Abs() == Give(x, b);
      if arenas[p].cnt == descs[d].blocksPerArena {
        ok := ReturnArena(p, d);
        GoneReturned(x, Abs(), b, d);
      } else {
        OneSettled(Abs(), p, d);
        KeptReturned(x, b, d);
        ok := true;
      }
    }

    lemma KeptReturned(x: View, b: nat, d: nat)
      requires |x.free| == DESC_CNT && d < DESC_CNT && Page(b) in x.arenas && x.arenas[Page(b)].kind == Small(d)
      ensures Returned(x, Give(x, b), b, d)
    {
    }

    lemma GoneReturned(x: View, x': View, b: nat, d: nat)
      requires |x.free| == DESC_CNT && d < DESC_CNT && Page(b) in x.arenas && x.arenas[Page(b)].kind == Small(d)
      requires x'.arenas == Give(x, b).arenas - {Page(b)}
      requires x'.free == Give(x, b).free[d := Others(Give(x, b).free[d], Page(b))]
      ensures Returned(x, x', b, d)
    {
      hide Page;
      OthersWithout(x.free[d], b, Page(b));
    }

    lemma LiveNotFree(x: View, b: nat)
      requires Inv(x) && b in x.live && |x.free| == DESC_CNT
      ensures forall e :: 0 <= e < DESC_CNT ==> b !in x.free[e]
    {
      forall e: nat, c | e < DESC_CNT && c in x.free[e] ensures c !in x.live {
        FreeInsideArenas(x, e, c);
      }
    }

    lemma OneSettled(x: View, p: nat, d: nat)
      requires ArenasOk(x) && SettledBut(x, p) && IsSmall(x, p, d) && x.arenas[p].cnt != BlocksPer(d)
      ensures Settled(x)
    {
      assert ArenaOk(p, x.arenas[p]);
    }

    /** The branch of sys_free for an arena all of whose blocks are free. */
    method ReturnArena(p: nat, d: nat) returns (ok: bool)
      requires Sound() && IsSmall(Abs(), p, d) && arenas[p].cnt == BlocksPer(d) && SettledBut(Abs(), p)
      modifies this`arenas, free, free.repr, mem.dir`pte, mem.kernelPool.bitmap.bits, mem.userPool.bitmap.bits,
        mem.kernelVaddr.bits
      ensures ok && Valid() && free.repr == old(free.repr)
      ensures arenas == old(arenas) - {p} && mem.dir.pte.Keys == old(mem.dir.pte.Keys) - RunPages(p, 1)
      ensures live == old(live) && free.Frees() == old(free.Frees())[d := Others(old(free.Frees())[d], p)]
      ensures GivesBack(old(mem.dir.pte), old(mem.kernelPool.Used()), mem.dir.pte, mem.kernelPool.Used())
      ensures unchanged(mem.userPool.bitmap.bits)
    {
      hide ArenasOk, FreeOk, CountsOk, LiveOk, Settled, Memory.Valid, Page, RunPages, Memory.RunSet, Behind,
        BlockLists.Valid, BlockLists.Frees, Others, GivesBack, Gone;
      PoolOk();
      ghost var x, pte, used := Abs(), mem.dir.pte, mem.kernelPool.Used();
      AllFree(x, p, d);
      ok := Purge(p, d);
      if !ok {
        assert false;
      }
      RunMapped(x, p);
      ok := mem.MfreePage(p, 1);
      RunGone(pte, mem.dir.pte, p, 1);
      RunGivenBack(pte, used, mem.dir.pte, mem.kernelPool.Used(), Vpn(p), 1);
      ghost var q := free.Frees()[d];
      DropSmallKeeps(x, p, d, q);
      DropSmallSettled(x, p, d, q);
      arenas := arenas - {p};
      assert Abs() == DropSmall(x, p, d, q);
    }

    lemma AllFree(x: View, p: nat, d: nat)
      requires Inv(x) && IsSmall(x, p, d) && x.arenas[p].cnt == BlocksPer(d)
      ensures p % PG_SIZE == 0 && NoDup(x.free[d])
      ensures forall i :: 0 <= i < BlocksPer(d) ==> Block(p, d, i) in x.free[d]
      ensures forall c :: c in x.free[d] && Page(c) == p ==> IsBlock(c, p, d)
    {
      assert ArenaOk(p, x.arenas[p]);
      CountAll(x.free[d], p, d, BlocksPer(d));
    }

    /** The loop that takes an arena's blocks off the free list, each after asserting that it is there. */
    method Purge(p: nat, d: nat) returns (ok: bool)
      requires d < DESC_CNT && DescsOk(descs[..]) && p % PG_SIZE == 0 && free.Valid() && Apart()
      requires NoDup(free.Frees()[d])
      requires forall i :: 0 <= i < BlocksPer(d) ==> Block(p, d, i) in free.Frees()[d]
      requires forall c :: c in free.Frees()[d] && Page(c) == p ==> IsBlock(c, p, d)
      modifies free, free.repr
      ensures ok && free.Valid() && free.repr == old(free.repr)
      ensures free.Frees() == old(free.Frees())[d := free.Frees()[d]] && NoDup(free.Frees()[d])
      ensures forall c :: c in free.Frees()[d] <==> c in old(free.Frees()[d]) && Page(c) != p
      ensures free.Frees()[d] == Others(old(free.Frees())[d], p)
    {
      hide Page, Block, IsBlock, BlocksPer, BlockLists.Valid, BlockLists.Frees, NoDup;
      ghost var was := free.Frees();
      ghost var q := was[d];
      var idx := 0;
      while idx < descs[d].blocksPerArena
        invariant 0 <= idx <= BlocksPer(d) && free.Valid() && free.repr == old(free.repr) && Apart()
        invariant free.Frees() == was[d := free.Frees()[d]] && NoDup(free.Frees()[d])
        invariant forall c :: c in free.Frees()[d] <==> c in q && Past(c, p, d, idx)
        invariant Others(free.Frees()[d], p) == Others(q, p)
        decreases BlocksPer(d) - idx
      {
        var b := Block(p, d, idx);
        PastOthers(p, d, idx);
        var found := free.Find(d, b);
        if !found {
          return false;
        }
        InPage(p, d, idx);
        ghost var now := free.Frees()[d];
        ghost var k := free.Remove(d, b);
        OneOut(now, k);
        OthersLess(now, k, p);
        idx := idx + 1;
      }
      PastAll(q, p, d);
      OthersAll(free.Frees()[d], p);
      ok := true;
    }

    /** What sys_malloc gave goes back with sys_free: the same arenas with the same counts, the same pages on the same
        frames, and no frame is lost but those that became page tables. Only a small block's place among the free ones
        of its class is another. */
    method MallocThenFree(size: nat) returns (r: Outcome<nat>)
      requires Valid()
      modifies this, free, free.repr, mem.dir, mem.kernelPool.bitmap.bits, mem.userPool.bitmap.bits,
        mem.kernelVaddr.bits
      ensures r.Done? ==> Valid() && live == old(live) && arenas == old(arenas) && mem.dir.pte == old(mem.dir.pte)
      ensures r.Done? ==> TablesAdded(old(mem.dir.pde), mem.dir.pde)
      ensures r.Done? ==>
        mem.kernelPool.Used() == old(mem.kernelPool.Used()) + NewTables(old(mem.dir.pde), mem.dir.pde)
      ensures r.Done? && size > 1024 ==> free.Frees() == old(free.Frees())
      ensures r.Done? && size <= 1024 ==>
        var d, q := ClassOf(size), old(free.Frees())[ClassOf(size)];
        free.Frees() == old(free.Frees())[d := if q == [] then [] else q[1..] + [q[0]]]
    {
      hide Inv, Settled, Memory.Valid, Page, BlocksPer, BlockSize, BlockLists.Valid, BlockLists.Frees, Takes, GivesBack,
        Returned, Memory.PagesHalt, Memory.NoRun, Block, BlocksOf, RunPages, NewTables, Sound;
      SoundOk();
      ghost var x0, pte0, pde0, used0 := Abs(), mem.dir.pte, mem.dir.pde, mem.kernelPool.Used();
      r := SysMalloc(size);
      if r.Done? {
        SoundOk();
        ghost var x1, pte1, used1 := Abs(), mem.dir.pte, mem.kernelPool.Used();
        var ok := SysFree(r.value);
        SoundOk();
        SameArena(x0, x1, Abs(), r.value, size);
        if size <= 1024 {
          if x0.free[ClassOf(size)] != [] {
            ListBack(x0, x1, Abs(), r.value, ClassOf(size));
          } else {
            PageBack(x0, x1, Abs(), r.value, ClassOf(size));
          }
        }
        assert mem.dir.pte.Keys == pte0.Keys;
        FramesBack(pte0, pde0, used0, pte1, mem.dir.pde, used1, mem.dir.pte, mem.kernelPool.Used());
      }
    }

    /** An arena is there afterwards exactly if it was there before: what is live is the same. */
    lemma SameArena(x0: View, x1: View, x2: View, b: nat, size: nat)
      requires Inv(x0) && Settled(x0) && Inv(x2) && Settled(x2)
      requires b !in x0.live && x1.live == x0.live[b := size] && x2.live == x1.live - {b}
      ensures x2.live == x0.live && (Page(b) in x2.arenas <==> Page(b) in x0.arenas)
    {
      hide Inv, Settled, Page;
      KeptIffLive(x0, Page(b));
      KeptIffLive(x2, Page(b));
      assert x2.live == x0.live;
    }

    lemma ListBack(x0: View, x1: View, x2: View, b: nat, d: nat)
      requires d < DESC_CNT && FromList(x0, x1, d) && b == x0.free[d][0] && Returned(x1, x2, b, d)
      requires Page(b) in x2.arenas
      ensures x2.arenas == x0.arenas && x2.free == x0.free[d := x0.free[d][1..] + [b]]
    {
    }

    lemma PageBack(x0: View, x1: View, x2: View, b: nat, d: nat)
      requires d < DESC_CNT && FromPage(x0, x1, Page(b), d) && Returned(x1, x2, b, d)
      requires Page(b) !in x2.arenas && x0.free[d] == []
      ensures x2.arenas == x0.arenas && x2.free == x0.free
    {
      var q := BlocksOf(Page(b), d, BlocksPer(d));
      BlocksOfPage(Page(b), d);
      OthersNone(q[1..], Page(b));
      assert x1.free[d] == q[1..];
    }

    lemma SoundOk()
      requires Valid()
      ensures mem.kernelPool.Valid() && free.Valid() && Apart() && Inv(Abs()) && Settled(Abs())
      ensures forall u, d :: u in mem.dir.pte && d in mem.dir.pde ==> mem.dir.pte[u] != mem.dir.pde[d]
    {
    }
  }

  /** `c` is none of the first `n` blocks of the arena at p. */
  ghost predicate Past(c: nat, p: nat, d: nat, n: nat)
    requires d < DESC_CNT
  {
    forall i :: 0 <= i < n ==> c != Block(p, d, i)
  }

  lemma PastOthers(p: nat, d: nat, n: nat)
    requires d < DESC_CNT && n < BlocksPer(d) && p % PG_SIZE == 0
    ensures Past(Block(p, d, n), p, d, n)
    ensures forall c :: Past(c, p, d, n + 1) <==> Past(c, p, d, n) && c != Block(p, d, n)
  {
    forall i | 0 <= i < n ensures Block(p, d, n) != Block(p, d, i) {
      BlockLayout(p, d, i, n);
    }
  }

  lemma PastAll(q: seq<nat>, p: nat, d: nat)
    requires d < DESC_CNT && p % PG_SIZE == 0
    requires forall c :: c in q && Page(c) == p ==> IsBlock(c, p, d)
    ensures forall c :: c in q ==> (Past(c, p, d, BlocksPer(d)) <==> Page(c) != p)
  {
    forall i | 0 <= i < BlocksPer(d) ensures Page(Block(p, d, i)) == p {
      BlockLayout(p, d, i, i);
    }
    forall c | c in q && Page(c) == p ensures !Past(c, p, d, BlocksPer(d)) {
      var i := IndexOf(c, p, d);
    }
  }

  /** Between calls there is an arena in a page exactly when something in it is live. */
  lemma KeptIffLive(x: View, p: nat)
    requires Inv(x) && Settled(x)
    ensures p in x.arenas <==> exists c :: c in x.live && Page(c) == p
  {
    if p in x.arenas {
      assert ArenaOk(p, x.arenas[p]);
      match x.arenas[p].kind {
        case Large =>
          HeaderPage(p);
          assert p + ARENA_HEADER in x.live;
        case Small(d) =>
          assert IsSmall(x, p, d);
          CountAll(x.free[d], p, d, BlocksPer(d));
          var i :| 0 <= i < BlocksPer(d) && Block(p, d, i) !in x.free[d];
          BlockLayout(p, d, i, i);
          assert Block(p, d, i) in x.live;
      }
    }
    forall c | c in x.live && Page(c) == p ensures p in x.arenas {
      assert LiveAt(x, c);
    }
  }
}
