/** The state changes of sys_malloc and sys_free on the abstract view, each keeping the invariant. */
module SlabSteps {
  import opened Pages
  import opened SlabInv

  // ---------------------------------------------------------------- large blocks

  function RunPages(p: nat, cnt: nat): set<nat> {
    set v: nat | v < Vpn(p) + cnt && InRun(v, p)
  }

  predicate InRun(v: nat, p: nat) {
    Vpn(p) <= v
  }

  function AddLarge(x: View, p: nat, cnt: nat, size: nat): View {
    x.(arenas := x.arenas[p := Arena(Large, cnt)], live := x.live[p + ARENA_HEADER := size],
       pages := x.pages + RunPages(p, cnt))
  }

  lemma AddLargeKeeps(x: View, p: nat, cnt: nat, size: nat)
    requires Inv(x) && p % PG_SIZE == 0 && cnt >= 1 && ARENA_HEADER + size <= cnt * PG_SIZE
    requires x.pages !! RunPages(p, cnt)
    ensures p + ARENA_HEADER !in x.live && Inv(AddLarge(x, p, cnt, size))
  {
    NewPage(x, p, cnt);
    HeaderPage(p);
    hide FreeOk, CountsOk, LiveOk, ArenasOk;
    AddLargeArenas(x, p, cnt, size);
    SmallSame(x, AddLarge(x, p, cnt, size));
    AddLargeLive(x, p, cnt, size);
  }

  /** Small arenas and free lists that stay as they are keep their part of the invariant. */
  lemma SmallSame(x: View, x': View)
    requires FreeOk(x) && CountsOk(x) && x'.free == x.free
    requires forall p: nat :: p in x.arenas && x.arenas[p].kind.Small? ==> p in x'.arenas && x'.arenas[p] == x.arenas[p]
    requires forall p: nat :: p in x'.arenas && x'.arenas[p].kind.Small? ==>
      p in x.arenas && x'.arenas[p] == x.arenas[p]
    ensures FreeOk(x') && CountsOk(x')
  {
    assert forall q: nat, d: nat :: IsSmall(x', q, d) <==> IsSmall(x, q, d);
  }

  /** A page that was not mapped holds no arena, no free block and nothing live. */
  lemma NewPage(x: View, p: nat, cnt: nat)
    requires Inv(x) && p % PG_SIZE == 0 && cnt >= 1 && x.pages !! RunPages(p, cnt)
    ensures p !in x.arenas
    ensures forall b :: b in x.live ==> Page(b) != p
    ensures forall d, b :: 0 <= d < DESC_CNT && b in x.free[d] ==> Page(b) != p
  {
    assert Vpn(p) in RunPages(p, cnt);
    if p in x.arenas {
      assert ArenaOk(p, x.arenas[p]) && InArena(Vpn(p), p, x.arenas[p]);
      assert false;
    }
    forall b | b in x.live ensures Page(b) != p {
      assert LiveAt(x, b);
    }
    forall d, b | 0 <= d < DESC_CNT && b in x.free[d] ensures Page(b) != p {
      assert IsSmall(x, Page(b), d);
    }
  }

  lemma AddLargeArenas(x: View, p: nat, cnt: nat, size: nat)
    requires ArenasOk(x) && p !in x.arenas && p % PG_SIZE == 0 && cnt >= 1 && x.pages !! RunPages(p, cnt)
    ensures ArenasOk(AddLarge(x, p, cnt, size))
  {
    var x' := AddLarge(x, p, cnt, size);
    forall q, v | q in x'.arenas && InArena(v, q, x'.arenas[q]) ensures v in x'.pages && (v in x.pages <==> q != p) {
      if q == p {
        assert InRun(v, p) && v in RunPages(p, cnt);
      } else {
        assert InArena(v, q, x.arenas[q]);
      }
    }
    forall q, r, v | q in x'.arenas && r in x'.arenas && InArena(v, q, x'.arenas[q]) && InArena(v, r, x'.arenas[r])
      ensures q == r
    {
      assert (v in x.pages <==> q != p) && (v in x.pages <==> r != p);
      assert q != p ==> InArena(v, q, x.arenas[q]) && InArena(v, r, x.arenas[r]);
    }
  }

  lemma AddLargeLive(x: View, p: nat, cnt: nat, size: nat)
    requires ArenasOk(x) && LiveOk(x) && p !in x.arenas && p % PG_SIZE == 0 && cnt >= 1
    requires ARENA_HEADER + size <= cnt * PG_SIZE
    ensures LiveOk(AddLarge(x, p, cnt, size))
  {
    hide Block, Page, BlocksPer;
    var x' := AddLarge(x, p, cnt, size);
    forall q: nat, d: nat, i: nat | IsSmall(x', q, d) && i < BlocksPer(d)
      ensures Block(q, d, i) in x'.live <==> Block(q, d, i) !in x'.free[d]
    {
      assert IsSmall(x, q, d) && ArenaOk(q, x.arenas[q]);
      if Block(q, d, i) == p + ARENA_HEADER {
        BlockOrHeader(q, d, i, p);
      }
    }
    HeaderPage(p);
    forall b | b in x'.live ensures LiveAt(x', b) {
      if b != p + ARENA_HEADER {
        assert LiveAt(x, b);
      }
    }
  }

  function DropLarge(x: View, p: nat): View
    requires p in x.arenas
  {
    x.(arenas := x.arenas - {p}, live := x.live - {p + ARENA_HEADER},
       pages := x.pages - RunPages(p, x.arenas[p].cnt))
  }

  lemma DropLargeKeeps(x: View, p: nat)
    requires Inv(x) && p in x.arenas && x.arenas[p].kind.Large?
    ensures Inv(DropLarge(x, p))
  {
    assert |x.free| == DESC_CNT;
    hide FreeOk, CountsOk, LiveOk, ArenasOk;
    DropArenas(x, DropLarge(x, p), p);
    SmallSame(x, DropLarge(x, p));
    DropLargeLive(x, p);
  }

  lemma DropArenas(x: View, x': View, p: nat)
    requires ArenasOk(x) && p in x.arenas && |x'.free| == DESC_CNT
    requires x'.arenas == x.arenas - {p} && x'.pages == x.pages - RunPages(p, PageCount(x.arenas[p]))
    ensures ArenasOk(x')
  {
    forall q, v | q in x'.arenas && InArena(v, q, x'.arenas[q]) ensures v in x'.pages {
      assert InArena(v, q, x.arenas[q]);
      assert !InArena(v, p, x.arenas[p]);
      assert v !in RunPages(p, PageCount(x.arenas[p]));
    }
  }

  lemma DropLargeLive(x: View, p: nat)
    requires ArenasOk(x) && LiveOk(x) && p in x.arenas && x.arenas[p].kind.Large?
    ensures LiveOk(DropLarge(x, p))
  {
    hide LiveAt, IsBlock;
    DropLargeBlocks(x, p);
    DropLargeKnown(x, p);
  }

  lemma DropLargeBlocks(x: View, p: nat)
    requires ArenasOk(x) && BlocksLive(x) && p in x.arenas && x.arenas[p].kind.Large?
    ensures BlocksLive(DropLarge(x, p))
  {
    hide Block, Page, BlocksPer;
    var x' := DropLarge(x, p);
    assert ArenaOk(p, x.arenas[p]);
    forall q: nat, d: nat, i: nat | IsSmall(x', q, d) && i < BlocksPer(d)
      ensures Block(q, d, i) in x'.live <==> Block(q, d, i) !in x'.free[d]
    {
      assert IsSmall(x, q, d) && ArenaOk(q, x.arenas[q]);
      if Block(q, d, i) == p + ARENA_HEADER {
        BlockOrHeader(q, d, i, p);
      }
    }
  }

  lemma DropLargeKnown(x: View, p: nat)
    requires LiveKnown(x) && p in x.arenas && x.arenas[p].kind.Large?
    ensures LiveKnown(DropLarge(x, p))
  {
    hide Page, IsBlock;
    forall b | b in DropLarge(x, p).live ensures LiveAt(DropLarge(x, p), b) {
      assert LiveAt(x, b);
    }
  }

  // ---------------------------------------------------------------- taking and giving back a block

  function Take(x: View, d: nat, size: nat): View
    requires d < DESC_CNT && |x.free| == DESC_CNT && x.free[d] != [] && Page(x.free[d][0]) in x.arenas
    requires x.arenas[Page(x.free[d][0])].cnt > 0
  {
    var b := x.free[d][0];
    var a := x.arenas[Page(b)];
    x.(arenas := x.arenas[Page(b) := a.(cnt := a.cnt - 1)], free := x.free[d := x.free[d][1..]],
       live := x.live[b := size])
  }

  /** The block index behind a free or live block of a small arena. */
  lemma IndexOf(b: nat, p: nat, d: nat) returns (i: nat)
    requires d < DESC_CNT && IsBlock(b, p, d)
    ensures i < BlocksPer(d) && b == Block(p, d, i)
  {
    i :| 0 <= i < BlocksPer(d) && b == Block(p, d, i);
  }

  lemma TakeDefined(x: View, d: nat)
    requires Inv(x) && d < DESC_CNT && x.free[d] != []
    ensures var b := x.free[d][0]; IsSmall(x, Page(b), d) && x.arenas[Page(b)].cnt > 0 && b !in x.live
  {
    var b := x.free[d][0];
    assert b in x.free[d];
    assert IsSmall(x, Page(b), d) && IsBlock(b, Page(b), d);
    var i := IndexOf(b, Page(b), d);
    if x.arenas[Page(b)].cnt == 0 {
      CountPositive(x.free[d], Page(b), d, BlocksPer(d), i);
    }
  }

  lemma {:induction false} CountPositive(q: seq<nat>, p: nat, d: nat, n: nat, i: nat)
    requires d < DESC_CNT && i < n && Block(p, d, i) in q
    ensures CountFree(q, p, d, n) > 0
  {
    if i == n - 1 {
    } else {
      CountPositive(q, p, d, n - 1, i);
    }
  }

  lemma TakeKeeps(x: View, d: nat, size: nat)
    requires Inv(x) && d < DESC_CNT && x.free[d] != [] && size <= BlockSize(d)
    requires Page(x.free[d][0]) in x.arenas && x.arenas[Page(x.free[d][0])].cnt > 0
    ensures Inv(Take(x, d, size))
  {
    TakeDefined(x, d);
    HeadOnce(x.free[d]);
    var b := x.free[d][0];
    var x' := Take(x, d, size);
    SameShape(x, x', Page(b));
    assert forall q: nat, e: nat :: IsSmall(x', q, e) <==> IsSmall(x, q, e);
    assert IsSmall(x, Page(b), d) && IsBlock(b, Page(b), d);
    var i := IndexOf(b, Page(b), d);
    MoveCounts(x', x, Page(b), d, i);
    TakeLive(x, d, size, i);
  }

  lemma HeadOnce(q: seq<nat>)
    requires NoDup(q) && q != []
    ensures NoDup(q[1..]) && forall c :: c in q[1..] <==> c in q && c != q[0]
  {
    forall c | c in q && c != q[0] ensures c in q[1..] {
      var i :| 0 <= i < |q| && q[i] == c;
      assert q[1..][i - 1] == c;
    }
  }

  /** Arenas that differ only in a counter. */
  lemma SameShape(x: View, x': View, p: nat)
    requires ArenasOk(x) && x'.pages == x.pages && |x'.free| == DESC_CNT
    requires p in x.arenas && p in x'.arenas && x'.arenas == x.arenas[p := x'.arenas[p]]
    requires x'.arenas[p].kind == x.arenas[p].kind && x.arenas[p].kind.Small? && ArenaOk(p, x'.arenas[p])
    ensures ArenasOk(x')
  {
    forall q, v | q in x'.arenas && InArena(v, q, x'.arenas[q]) ensures InArena(v, q, x.arenas[q]) {}
  }

  /** `y` has one more free block than `x`: block i of the arena at p, of class d. */
  ghost predicate OneFreer(x: View, y: View, p: nat, d: nat, i: nat) {
    && |x.free| == |y.free| == DESC_CNT && d < DESC_CNT && i < BlocksPer(d)
    && x.arenas.Keys == y.arenas.Keys && p % PG_SIZE == 0
    && (forall q :: q in x.arenas && q != p ==> y.arenas[q] == x.arenas[q])
    && p in x.arenas && x.arenas[p].kind == y.arenas[p].kind == Small(d) && y.arenas[p].cnt == x.arenas[p].cnt + 1
    && (forall e :: 0 <= e < DESC_CNT && e != d ==> y.free[e] == x.free[e])
    && Block(p, d, i) !in x.free[d]
    && forall c :: c in y.free[d] <==> c in x.free[d] || c == Block(p, d, i)
  }

  /** Moving one block in or out of a free list moves its arena's counter, and no other. */
  lemma MoveCounts(x: View, y: View, p: nat, d: nat, i: nat)
    requires OneFreer(x, y, p, d, i)
    requires forall q :: q in x.arenas ==> q % PG_SIZE == 0
    ensures CountsOk(x) <==> CountsOk(y)
  {
    forall q: nat, e: nat | IsSmall(x, q, e)
      ensures CountFree(y.free[e], q, e, BlocksPer(e)) - CountFree(x.free[e], q, e, BlocksPer(e))
           == y.arenas[q].cnt - x.arenas[q].cnt
    {
      if q == p {
        forall j: nat | j < BlocksPer(d) && j != i ensures Block(p, d, j) != Block(p, d, i) {
          BlockLayout(p, d, i, j);
          BlockLayout(p, d, j, i);
        }
        CountOneMore(x.free[d], y.free[d], p, d, BlocksPer(d), i);
      } else {
        forall j: nat | j < BlocksPer(e) ensures Block(q, e, j) in x.free[e] <==> Block(q, e, j) in y.free[e] {
          BlockLayout(q, e, j, j);
          BlockLayout(p, d, i, i);
        }
        CountSame(x.free[e], y.free[e], q, e, BlocksPer(e));
      }
    }
    assert forall q: nat, e: nat :: IsSmall(x, q, e) <==> IsSmall(y, q, e);
  }

  lemma TakeLive(x: View, d: nat, size: nat, i: nat)
    requires ArenasOk(x) && LiveOk(x) && d < DESC_CNT && NoDup(x.free[d]) && x.free[d] != [] && size <= BlockSize(d)
    requires IsSmall(x, Page(x.free[d][0]), d) && x.arenas[Page(x.free[d][0])].cnt > 0
    requires i < BlocksPer(d) && x.free[d][0] == Block(Page(x.free[d][0]), d, i)
    ensures LiveOk(Take(x, d, size))
  {
    hide Block, Page, BlocksPer, BlockSize;
    var b, x' := x.free[d][0], Take(x, d, size);
    HeadOnce(x.free[d]);
    forall q: nat, e: nat, j: nat | IsSmall(x', q, e) && j < BlocksPer(e)
      ensures Block(q, e, j) in x'.live <==> Block(q, e, j) !in x'.free[e]
    {
      assert IsSmall(x, q, e) && ArenaOk(q, x.arenas[q]);
      OneClass(x, q, e, j, b, d);
    }
    forall c | c in x'.live ensures LiveAt(x', c) {
      if c != b {
        assert LiveAt(x, c);
      }
    }
    forall q | q in x'.arenas && x'.arenas[q].kind.Large? ensures q + ARENA_HEADER in x'.live {
      assert q in x.arenas && x.arenas[q].kind.Large?;
    }
  }

  /** A block address belongs to the class of the arena it lies in. */
  lemma OneClass(x: View, q: nat, e: nat, j: nat, b: nat, d: nat)
    requires IsSmall(x, q, e) && j < BlocksPer(e) && q % PG_SIZE == 0 && IsSmall(x, Page(b), d)
    ensures Block(q, e, j) == b ==> e == d
  {
    BlockLayout(q, e, j, j);
  }

  function Give(x: View, b: nat): View
    requires Page(b) in x.arenas && x.arenas[Page(b)].kind.Small?
    requires x.arenas[Page(b)].kind.desc < |x.free|
  {
    var a := x.arenas[Page(b)];
    var d := a.kind.desc;
    x.(arenas := x.arenas[Page(b) := a.(cnt := a.cnt + 1)], free := x.free[d := x.free[d] + [b]], live := x.live - {b})
  }

  lemma GiveKeeps(x: View, b: nat)
    requires Inv(x) && b in x.live && Page(b) in x.arenas && x.arenas[Page(b)].kind.Small?
    requires x.arenas[Page(b)].kind.desc < |x.free|
    ensures Inv(Give(x, b))
  {
    assert LiveAt(x, b);
    var p, d, x' := Page(b), x.arenas[Page(b)].kind.desc, Give(x, b);
    var i := IndexOf(b, p, d);
    assert IsSmall(x, p, d);
    CountAll(x.free[d], p, d, BlocksPer(d));
    SameShape(x, x', p);
    assert b !in x.free[d];
    GiveFree(x, b);
    MoveCounts(x, x', p, d, i);
    GiveLive(x, b, i);
  }

  lemma GiveFree(x: View, b: nat)
    requires Inv(x) && b in x.live && LiveAt(x, b) && x.arenas[Page(b)].kind.Small?
    requires b !in x.free[x.arenas[Page(b)].kind.desc]
    ensures FreeOk(Give(x, b))
  {
    var x' := Give(x, b);
    forall e, c | 0 <= e < DESC_CNT && c in x'.free[e] ensures IsSmall(x', Page(c), e) && IsBlock(c, Page(c), e) {
      if c != b {
        assert IsSmall(x, Page(c), e);
      } else if c in x.free[e] {
        assert IsSmall(x, Page(c), e);
      }
    }
  }

  lemma GiveLive(x: View, b: nat, i: nat)
    requires ArenasOk(x) && LiveOk(x) && b in x.live && LiveAt(x, b) && x.arenas[Page(b)].kind.Small?
    requires i < BlocksPer(x.arenas[Page(b)].kind.desc) && b == Block(Page(b), x.arenas[Page(b)].kind.desc, i)
    ensures LiveOk(Give(x, b))
  {
    assert ArenaOk(Page(b), x.arenas[Page(b)]) && |x.free| == DESC_CNT;
    hide Block, Page, BlocksPer, IsBlock, ArenasOk, BlocksLive, LiveKnown;
    GiveBlocks(x, b, i);
    GiveKnown(x, b);
    GiveLarges(x, b);
  }

  lemma GiveBlocks(x: View, b: nat, i: nat)
    requires ArenasOk(x) && BlocksLive(x) && b in x.live && Page(b) in x.arenas && x.arenas[Page(b)].kind.Small?
    requires ArenaOk(Page(b), x.arenas[Page(b)])
    requires i < BlocksPer(x.arenas[Page(b)].kind.desc) && b == Block(Page(b), x.arenas[Page(b)].kind.desc, i)
    ensures BlocksLive(Give(x, b))
  {
    hide Block, Page, BlocksPer;
    var p, d, x' := Page(b), x.arenas[Page(b)].kind.desc, Give(x, b);
    forall q: nat, e: nat, j: nat | IsSmall(x', q, e) && j < BlocksPer(e)
      ensures Block(q, e, j) in x'.live <==> Block(q, e, j) !in x'.free[e]
    {
      assert IsSmall(x, q, e) && ArenaOk(q, x.arenas[q]) && IsSmall(x, p, d);
      OneClass(x, q, e, j, b, d);
    }
  }

  lemma GiveKnown(x: View, b: nat)
    requires |x.free| == DESC_CNT && LiveKnown(x)
    requires b in x.live && Page(b) in x.arenas && x.arenas[Page(b)].kind.Small?
    requires x.arenas[Page(b)].kind.desc < DESC_CNT
    ensures LiveKnown(Give(x, b))
  {
    hide Page, IsBlock;
    forall c | c in Give(x, b).live ensures LiveAt(Give(x, b), c) {
      assert LiveAt(x, c);
    }
  }

  lemma GiveLarges(x: View, b: nat)
    requires ArenasOk(x) && LargesLive(x)
    requires b in x.live && Page(b) in x.arenas && x.arenas[Page(b)].kind.Small?
    requires x.arenas[Page(b)].kind.desc < DESC_CNT
    ensures LargesLive(Give(x, b))
  {
    hide Page;
    var x' := Give(x, b);
    forall q | q in x'.arenas && x'.arenas[q].kind.Large? ensures q + ARENA_HEADER in x'.live {
      assert q in x.arenas && x.arenas[q].kind.Large? && ArenaOk(q, x.arenas[q]);
      HeaderPage(q);
    }
  }

  // ---------------------------------------------------------------- a new arena, and one that is given back

  /** The blocks of the arena at p, in order. */
  function BlocksOf(p: nat, d: nat, n: nat): (q: seq<nat>)
    requires d < DESC_CNT
    ensures |q| == n && forall i :: 0 <= i < n ==> q[i] == Block(p, d, i)
  {
    if n == 0 then [] else BlocksOf(p, d, n - 1) + [Block(p, d, n - 1)]
  }

  function Stock(x: View, p: nat, d: nat): View
    requires d < DESC_CNT && |x.free| == DESC_CNT
  {
    x.(arenas := x.arenas[p := Arena(Small(d), BlocksPer(d))],
       free := x.free[d := x.free[d] + BlocksOf(p, d, BlocksPer(d))], pages := x.pages + RunPages(p, 1))
  }

  lemma StockKeeps(x: View, p: nat, d: nat)
    requires Inv(x) && p % PG_SIZE == 0 && d < DESC_CNT && x.pages !! RunPages(p, 1)
    ensures Inv(Stock(x, p, d))
  {
    NewPage(x, p, 1);
    StockArenas(x, p, d);
    StockFree(x, p, d);
    StockCounts(x, p, d);
    hide ArenasOk, FreeOk, CountsOk;
    StockBlocks(x, p, d);
    StockKnown(x, p, d);
  }

  lemma StockArenas(x: View, p: nat, d: nat)
    requires ArenasOk(x) && p !in x.arenas && p % PG_SIZE == 0 && d < DESC_CNT && x.pages !! RunPages(p, 1)
    ensures ArenasOk(Stock(x, p, d))
  {
    hide BlocksOf, BlocksPer;
    var x' := Stock(x, p, d);
    forall q, v | q in x'.arenas && InArena(v, q, x'.arenas[q]) ensures v in x'.pages && (v in x.pages <==> q != p) {
      if q == p {
        assert InRun(v, p) && v in RunPages(p, 1);
      } else {
        assert InArena(v, q, x.arenas[q]);
      }
    }
    forall q, r, v | q in x'.arenas && r in x'.arenas && InArena(v, q, x'.arenas[q]) && InArena(v, r, x'.arenas[r])
      ensures q == r
    {
      assert (v in x.pages <==> q != p) && (v in x.pages <==> r != p);
      assert q != p ==> InArena(v, q, x.arenas[q]) && InArena(v, r, x.arenas[r]);
    }
  }

  lemma BlocksOfPage(p: nat, d: nat)
    requires p % PG_SIZE == 0 && d < DESC_CNT
    ensures NoDup(BlocksOf(p, d, BlocksPer(d)))
    ensures forall b :: b in BlocksOf(p, d, BlocksPer(d)) <==> IsBlock(b, p, d)
    ensures forall b :: IsBlock(b, p, d) ==> Page(b) == p
  {
    var q := BlocksOf(p, d, BlocksPer(d));
    forall i, j | 0 <= i < j < |q| ensures q[i] != q[j] {
      BlockLayout(p, d, i, j);
    }
    forall b | IsBlock(b, p, d) ensures Page(b) == p && b in q {
      var i := IndexOf(b, p, d);
      BlockLayout(p, d, i, i);
      assert q[i] == b;
    }
  }

  lemma StockFree(x: View, p: nat, d: nat)
    requires FreeOk(x) && p !in x.arenas && p % PG_SIZE == 0 && d < DESC_CNT
    requires forall e, b :: 0 <= e < DESC_CNT && b in x.free[e] ==> Page(b) != p
    ensures FreeOk(Stock(x, p, d))
  {
    hide BlocksOf, Page, IsBlock;
    var x' := Stock(x, p, d);
    BlocksOfPage(p, d);
    forall e, b | 0 <= e < DESC_CNT && b in x'.free[e] ensures IsSmall(x', Page(b), e) && IsBlock(b, Page(b), e) {
      if b in x.free[e] {
        assert IsSmall(x, Page(b), e) && IsBlock(b, Page(b), e);
      } else {
        assert e == d && b in BlocksOf(p, d, BlocksPer(d));
      }
    }
    NoDupConcat(x.free[d], BlocksOf(p, d, BlocksPer(d)));
  }

  lemma NoDupConcat(a: seq<nat>, b: seq<nat>)
    requires NoDup(a) && NoDup(b) && forall c :: c in a ==> c !in b
    ensures NoDup(a + b)
  {
    forall i, j | 0 <= i < j < |a + b| ensures (a + b)[i] != (a + b)[j] {
      if i < |a| <= j {
        assert a[i] in a && b[j - |a|] in b;
      }
    }
  }

  lemma StockCounts(x: View, p: nat, d: nat)
    requires ArenasOk(x) && CountsOk(x) && p !in x.arenas && p % PG_SIZE == 0 && d < DESC_CNT
    ensures CountsOk(Stock(x, p, d))
  {
    var x', all := Stock(x, p, d), BlocksOf(p, d, BlocksPer(d));
    BlocksOfPage(p, d);
    forall q: nat, e: nat | IsSmall(x', q, e)
      ensures x'.arenas[q].cnt == CountFree(x'.free[e], q, e, BlocksPer(e))
    {
      if q == p {
        forall i | 0 <= i < BlocksPer(d) ensures Block(p, d, i) in x'.free[d] {
          assert all[i] == Block(p, d, i) && all[i] in all;
        }
        CountAll(x'.free[d], p, d, BlocksPer(d));
      } else {
        assert IsSmall(x, q, e) && ArenaOk(q, x.arenas[q]);
        forall i: nat | i < BlocksPer(e) ensures Block(q, e, i) in x.free[e] <==> Block(q, e, i) in x'.free[e] {
          BlockLayout(q, e, i, i);
        }
        CountSame(x.free[e], x'.free[e], q, e, BlocksPer(e));
      }
    }
  }

  lemma StockBlocks(x: View, p: nat, d: nat)
    requires ArenasOk(x) && BlocksLive(x) && p !in x.arenas && p % PG_SIZE == 0 && d < DESC_CNT
    requires forall b :: b in x.live ==> Page(b) != p
    ensures BlocksLive(Stock(x, p, d))
  {
    hide Page, IsBlock;
    var x', all := Stock(x, p, d), BlocksOf(p, d, BlocksPer(d));
    BlocksOfPage(p, d);
    forall q: nat, e: nat, i: nat | IsSmall(x', q, e) && i < BlocksPer(e)
      ensures Block(q, e, i) in x'.live <==> Block(q, e, i) !in x'.free[e]
    {
      if q == p {
        BlockLayout(p, d, i, i);
        assert all[i] == Block(p, d, i) && all[i] in all;
      } else {
        assert IsSmall(x, q, e) && ArenaOk(q, x.arenas[q]);
        BlockLayout(q, e, i, i);
      }
    }
  }

  lemma StockKnown(x: View, p: nat, d: nat)
    requires |x.free| == DESC_CNT && LiveKnown(x) && LargesLive(x) && p !in x.arenas && d < DESC_CNT
    ensures LiveKnown(Stock(x, p, d)) && LargesLive(Stock(x, p, d))
  {
    hide Page, IsBlock, BlocksOf;
    forall c | c in Stock(x, p, d).live ensures LiveAt(Stock(x, p, d), c) {
      assert LiveAt(x, c);
    }
  }

  /** `q` is the free list of class d without the blocks of the arena at p. */
  ghost predicate Purged(x: View, p: nat, d: nat, q: seq<nat>)
    requires d < |x.free|
  {
    NoDup(q) && forall c :: c in q <==> c in x.free[d] && Page(c) != p
  }

  function DropSmall(x: View, p: nat, d: nat, q: seq<nat>): View
    requires d < |x.free|
  {
    x.(arenas := x.arenas - {p}, free := x.free[d := q], pages := x.pages - RunPages(p, 1))
  }

  lemma DropSmallKeeps(x: View, p: nat, d: nat, q: seq<nat>)
    requires Inv(x) && IsSmall(x, p, d) && x.arenas[p].cnt == BlocksPer(d) && Purged(x, p, d, q)
    ensures Inv(DropSmall(x, p, d, q))
    ensures forall e, c :: 0 <= e < DESC_CNT && c in DropSmall(x, p, d, q).free[e] ==> Page(c) != p
  {
    var x' := DropSmall(x, p, d, q);
    DropArenas(x, x', p);
    CountAll(x.free[d], p, d, BlocksPer(d));
    DropSmallFree(x, p, d, q);
    DropSmallCounts(x, p, d, q);
    NothingLive(x, p, d);
    hide ArenasOk, FreeOk, CountsOk;
    DropSmallBlocks(x, p, d, q);
    DropSmallKnown(x, p, d, q);
  }

  /** An arena whose blocks are all free holds nothing live. */
  lemma NothingLive(x: View, p: nat, d: nat)
    requires ArenasOk(x) && LiveOk(x) && IsSmall(x, p, d)
    requires forall i :: 0 <= i < BlocksPer(d) ==> Block(p, d, i) in x.free[d]
    ensures forall c :: c in x.live ==> Page(c) != p
  {
    hide Page, Block;
    forall c | c in x.live ensures Page(c) != p {
      assert LiveAt(x, c);
      if Page(c) == p {
        var i := IndexOf(c, p, d);
        assert false;
      }
    }
  }

  lemma DropSmallFree(x: View, p: nat, d: nat, q: seq<nat>)
    requires FreeOk(x) && IsSmall(x, p, d) && Purged(x, p, d, q)
    ensures FreeOk(DropSmall(x, p, d, q))
    ensures forall e, c :: 0 <= e < DESC_CNT && c in DropSmall(x, p, d, q).free[e] ==> Page(c) != p
  {
    hide Page, IsBlock;
    var x' := DropSmall(x, p, d, q);
    forall e, c | 0 <= e < DESC_CNT && c in x'.free[e]
      ensures Page(c) != p && IsSmall(x', Page(c), e) && IsBlock(c, Page(c), e)
    {
      assert IsSmall(x, Page(c), e) && IsBlock(c, Page(c), e);
    }
  }

  lemma DropSmallCounts(x: View, p: nat, d: nat, q: seq<nat>)
    requires ArenasOk(x) && CountsOk(x) && IsSmall(x, p, d) && Purged(x, p, d, q)
    ensures CountsOk(DropSmall(x, p, d, q))
  {
    var x' := DropSmall(x, p, d, q);
    forall r: nat, e: nat | IsSmall(x', r, e)
      ensures x'.arenas[r].cnt == CountFree(x'.free[e], r, e, BlocksPer(e))
    {
      assert IsSmall(x, r, e) && ArenaOk(r, x.arenas[r]);
      forall i: nat | i < BlocksPer(e) ensures Block(r, e, i) in x.free[e] <==> Block(r, e, i) in x'.free[e] {
        BlockLayout(r, e, i, i);
      }
      CountSame(x.free[e], x'.free[e], r, e, BlocksPer(e));
    }
  }

  lemma DropSmallBlocks(x: View, p: nat, d: nat, q: seq<nat>)
    requires ArenasOk(x) && BlocksLive(x) && IsSmall(x, p, d) && Purged(x, p, d, q)
    ensures BlocksLive(DropSmall(x, p, d, q))
  {
    hide Page;
    var x' := DropSmall(x, p, d, q);
    forall r: nat, e: nat, i: nat | IsSmall(x', r, e) && i < BlocksPer(e)
      ensures Block(r, e, i) in x'.live <==> Block(r, e, i) !in x'.free[e]
    {
      assert IsSmall(x, r, e) && ArenaOk(r, x.arenas[r]);
      BlockLayout(r, e, i, i);
    }
  }

  lemma DropSmallKnown(x: View, p: nat, d: nat, q: seq<nat>)
    requires LiveKnown(x) && LargesLive(x) && IsSmall(x, p, d) && d < |x.free|
    requires forall c :: c in x.live ==> Page(c) != p
    ensures LiveKnown(DropSmall(x, p, d, q)) && LargesLive(DropSmall(x, p, d, q))
  {
    hide Page, IsBlock;
    forall c | c in DropSmall(x, p, d, q).live ensures LiveAt(DropSmall(x, p, d, q), c) {
      assert LiveAt(x, c);
    }
  }

  // ---------------------------------------------------------------- no wholly free arena is left behind

  lemma AddLargeSettled(x: View, p: nat, cnt: nat, size: nat)
    requires Settled(x) && p !in x.arenas
    ensures Settled(AddLarge(x, p, cnt, size))
  {
    assert forall q: nat, d: nat :: IsSmall(AddLarge(x, p, cnt, size), q, d) ==> IsSmall(x, q, d);
  }

  lemma DropLargeSettled(x: View, p: nat)
    requires Settled(x) && p in x.arenas
    ensures Settled(DropLarge(x, p))
  {
    assert forall q: nat, d: nat :: IsSmall(DropLarge(x, p), q, d) ==> IsSmall(x, q, d);
  }

  /** Wholly free arenas, if any, are the one at `p`. */
  ghost predicate SettledBut(x: View, p: nat) {
    forall q: nat, d: nat :: IsSmall(x, q, d) && q != p ==> x.arenas[q].cnt < BlocksPer(d)
  }

  lemma StockSettled(x: View, p: nat, d: nat)
    requires Settled(x) && d < DESC_CNT && |x.free| == DESC_CNT
    ensures SettledBut(Stock(x, p, d), p)
  {
    assert forall q: nat, e: nat :: IsSmall(Stock(x, p, d), q, e) && q != p ==> IsSmall(x, q, e);
  }

  lemma TakeSettled(x: View, d: nat, size: nat)
    requires Inv(x) && d < DESC_CNT && x.free[d] != [] && SettledBut(x, Page(x.free[d][0]))
    requires Page(x.free[d][0]) in x.arenas && x.arenas[Page(x.free[d][0])].cnt > 0
    ensures Settled(Take(x, d, size))
  {
    var p := Page(x.free[d][0]);
    assert ArenaOk(p, x.arenas[p]);
    assert forall q: nat, e: nat :: IsSmall(Take(x, d, size), q, e) ==> IsSmall(x, q, e);
  }

  lemma GiveSettled(x: View, b: nat)
    requires Settled(x) && |x.free| == DESC_CNT && Page(b) in x.arenas && x.arenas[Page(b)].kind.Small?
    requires x.arenas[Page(b)].kind.desc < DESC_CNT
    ensures SettledBut(Give(x, b), Page(b))
  {
    assert forall q: nat, e: nat :: IsSmall(Give(x, b), q, e) ==> IsSmall(x, q, e);
  }

  lemma DropSmallSettled(x: View, p: nat, d: nat, q: seq<nat>)
    requires SettledBut(x, p) && d < |x.free|
    ensures Settled(DropSmall(x, p, d, q))
  {
    assert forall r: nat, e: nat :: IsSmall(DropSmall(x, p, d, q), r, e) ==> IsSmall(x, r, e);
  }
}
