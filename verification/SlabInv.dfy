/** What sys_malloc and sys_free of kernel/memory.c keep true of arenas, free lists and live blocks. */
module SlabInv {
  import opened Pages

  const DESC_CNT: nat := 7
  const ARENA_HEADER: nat := 12  // sizeof(struct arena)

  /** block_size of descriptor d. */
  function BlockSize(d: nat): (n: nat)
    requires d < DESC_CNT
    ensures 16 <= n <= 1024
  {
    match d
    case 0 => 16 case 1 => 32 case 2 => 64 case 3 => 128 case 4 => 256 case 5 => 512 case _ => 1024
  }

  /** blocks_per_arena of descriptor d. */
  function BlocksPer(d: nat): (n: nat)
    requires d < DESC_CNT
    ensures 3 <= n <= 255
  {
    match d
    case 0 => 255 case 1 => 127 case 2 => 63 case 3 => 31 case 4 => 15 case 5 => 7 case _ => 3
  }

  /** Seven classes, each twice the one before; a page has as many blocks as fit behind the header. */
  lemma SizeClasses(d: nat)
    requires d < DESC_CNT
    ensures BlockSize(0) == 16 && (d > 0 ==> BlockSize(d) == 2 * BlockSize(d - 1))
    ensures ARENA_HEADER + BlocksPer(d) * BlockSize(d) <= PG_SIZE < ARENA_HEADER + (BlocksPer(d) + 1) * BlockSize(d)
  {
    match d {
      case 0 => case 1 => case 2 => case 3 => case 4 => case 5 => case _ =>
    }
  }

  /** arena2block */
  function Block(p: nat, d: nat, i: nat): nat
    requires d < DESC_CNT
  {
    p + ARENA_HEADER + i * BlockSize(d)
  }

  /** block2arena */
  function Page(b: nat): nat {
    b / PG_SIZE * PG_SIZE
  }

  datatype Kind = Small(desc: nat) | Large

  /** struct arena: a small arena counts its free blocks, a large one its pages. */
  datatype Arena = Arena(kind: Kind, cnt: nat)

  /** `pages` are the mapped page numbers; `live` is history: what callers hold, with the size asked for. */
  datatype View = View(arenas: map<nat, Arena>, free: seq<seq<nat>>, live: map<nat, nat>, pages: set<nat>)

  // ---------------------------------------------------------------- blocks in a page

  /** Blocks of a page lie past the header, inside the page, and apart from each other. */
  lemma BlockLayout(p: nat, d: nat, i: nat, j: nat)
    requires p % PG_SIZE == 0 && d < DESC_CNT && i < BlocksPer(d) && j < BlocksPer(d)
    ensures p + ARENA_HEADER <= Block(p, d, i) && Block(p, d, i) + BlockSize(d) <= p + PG_SIZE
    ensures Page(Block(p, d, i)) == p
    ensures i < j ==> Block(p, d, i) + BlockSize(d) <= Block(p, d, j)
  {
    match d {
      case 0 => case 1 => case 2 => case 3 => case 4 => case 5 => case _ =>
    }
  }

  /** A block can only coincide with a large block's start in the same page. */
  lemma BlockOrHeader(q: nat, d: nat, i: nat, p: nat)
    requires p % PG_SIZE == 0 && q % PG_SIZE == 0 && d < DESC_CNT && i < BlocksPer(d)
    requires Block(q, d, i) == p + ARENA_HEADER
    ensures p == q
  {
    BlockLayout(q, d, i, i);
  }

  lemma HeaderPage(p: nat)
    requires p % PG_SIZE == 0
    ensures Page(p + ARENA_HEADER) == p
  {
  }

  ghost predicate IsBlock(b: nat, p: nat, d: nat)
    requires d < DESC_CNT
  {
    exists i :: 0 <= i < BlocksPer(d) && b == Block(p, d, i)
  }

  // ---------------------------------------------------------------- free blocks of an arena

  function CountFree(q: seq<nat>, p: nat, d: nat, n: nat): (c: nat)
    requires d < DESC_CNT
    ensures c <= n
  {
    if n == 0 then 0 else CountFree(q, p, d, n - 1) + (if Block(p, d, n - 1) in q then 1 else 0)
  }

  lemma {:induction false} CountSame(q: seq<nat>, q': seq<nat>, p: nat, d: nat, n: nat)
    requires d < DESC_CNT
    requires forall i :: 0 <= i < n ==> (Block(p, d, i) in q <==> Block(p, d, i) in q')
    ensures CountFree(q, p, d, n) == CountFree(q', p, d, n)
  {
    if n == 0 {
    } else {
      CountSame(q, q', p, d, n - 1);
    }
  }

  lemma {:induction false} CountOneMore(q: seq<nat>, q': seq<nat>, p: nat, d: nat, n: nat, j: nat)
    requires d < DESC_CNT && j < n
    requires forall i :: 0 <= i < n && i != j ==> (Block(p, d, i) in q <==> Block(p, d, i) in q')
    requires Block(p, d, j) !in q && Block(p, d, j) in q'
    ensures CountFree(q', p, d, n) == CountFree(q, p, d, n) + 1
  {
    if j == n - 1 {
      CountSame(q, q', p, d, n - 1);
    } else {
      CountOneMore(q, q', p, d, n - 1, j);
    }
  }

  lemma {:induction false} CountAll(q: seq<nat>, p: nat, d: nat, n: nat)
    requires d < DESC_CNT
    ensures CountFree(q, p, d, n) == n <==> forall i :: 0 <= i < n ==> Block(p, d, i) in q
  {
    if n == 0 {
    } else {
      CountAll(q, p, d, n - 1);
    }
  }

  // ---------------------------------------------------------------- the invariant

  ghost predicate NoDup(q: seq<nat>) {
    forall i, j :: 0 <= i < j < |q| ==> q[i] != q[j]
  }

  function PageCount(a: Arena): nat {
    if a.kind.Large? then a.cnt else 1
  }

  /** Page number `v` is one of the pages of the arena at `p`. */
  predicate InArena(v: nat, p: nat, a: Arena) {
    Vpn(p) <= v < Vpn(p) + PageCount(a)
  }

  ghost predicate ArenaOk(p: nat, a: Arena) {
    p % PG_SIZE == 0 && if a.kind.Large? then a.cnt >= 1 else a.kind.desc < DESC_CNT && a.cnt <= BlocksPer(a.kind.desc)
  }

  ghost predicate ArenasOk(x: View) {
    && |x.free| == DESC_CNT
    && (forall p :: p in x.arenas ==> ArenaOk(p, x.arenas[p]))
    && (forall p, v :: p in x.arenas && InArena(v, p, x.arenas[p]) ==> v in x.pages)
    && (forall p, q, v :: p in x.arenas && q in x.arenas && InArena(v, p, x.arenas[p]) && InArena(v, q, x.arenas[q])
          ==> p == q)
  }

  ghost predicate IsSmall(x: View, p: nat, d: nat) {
    d < DESC_CNT && p in x.arenas && x.arenas[p].kind == Small(d)
  }

  /** Free lists hold blocks of their own class in arenas that exist, each once. */
  ghost predicate FreeOk(x: View) {
    && |x.free| == DESC_CNT
    && (forall d :: 0 <= d < DESC_CNT ==> NoDup(x.free[d]))
    && (forall d, b :: 0 <= d < DESC_CNT && b in x.free[d] ==> IsSmall(x, Page(b), d) && IsBlock(b, Page(b), d))
  }

  ghost predicate CountsOk(x: View) {
    && |x.free| == DESC_CNT
    && forall p: nat, d: nat :: IsSmall(x, p, d) ==> x.arenas[p].cnt == CountFree(x.free[d], p, d, BlocksPer(d))
  }

  /** A block of a small arena is live exactly when it is not free. */
  ghost predicate BlocksLive(x: View) {
    && |x.free| == DESC_CNT
    && forall p: nat, d: nat, i: nat :: IsSmall(x, p, d) && i < BlocksPer(d) ==>
         (Block(p, d, i) in x.live <==> Block(p, d, i) !in x.free[d])
  }

  ghost predicate LargesLive(x: View) {
    forall p :: p in x.arenas && x.arenas[p].kind.Large? ==> p + ARENA_HEADER in x.live
  }

  /** Nothing is live but blocks of arenas. */
  ghost predicate LiveKnown(x: View) {
    forall b :: b in x.live ==> LiveAt(x, b)
  }

  ghost predicate LiveOk(x: View) {
    BlocksLive(x) && LargesLive(x) && LiveKnown(x)
  }

  ghost predicate LiveAt(x: View, b: nat)
    requires b in x.live
  {
    && Page(b) in x.arenas
    && match x.arenas[Page(b)].kind
       case Large => b == Page(b) + ARENA_HEADER && ARENA_HEADER + x.live[b] <= x.arenas[Page(b)].cnt * PG_SIZE
       case Small(d) => d < DESC_CNT && IsBlock(b, Page(b), d) && x.live[b] <= BlockSize(d)
  }

  ghost predicate Inv(x: View) {
    ArenasOk(x) && FreeOk(x) && CountsOk(x) && LiveOk(x)
  }

  /** Between calls no arena is wholly free: its page would have been given back. */
  ghost predicate Settled(x: View) {
    forall p: nat, d: nat :: IsSmall(x, p, d) ==> x.arenas[p].cnt < BlocksPer(d)
  }

  // ---------------------------------------------------------------- what callers get from it

  /** The bytes a caller may use behind a live pointer. */
  function Extent(x: View, b: nat): nat
    requires b in x.live && LiveAt(x, b)
  {
    match x.arenas[Page(b)].kind
    case Large => x.arenas[Page(b)].cnt * PG_SIZE - (b - Page(b))
    case Small(d) => BlockSize(d)
  }

  /** A live block has room for what was asked, past the header and inside its arena's own pages. */
  lemma LiveRoom(x: View, b: nat)
    requires Inv(x) && b in x.live
    ensures LiveAt(x, b) && ArenaOk(Page(b), x.arenas[Page(b)])
    ensures x.live[b] <= Extent(x, b)
    ensures Page(b) + ARENA_HEADER <= b
    ensures b + Extent(x, b) <= Page(b) + PageCount(x.arenas[Page(b)]) * PG_SIZE
  {
    assert LiveAt(x, b);
    var a := x.arenas[Page(b)];
    if a.kind.Small? {
      var i :| 0 <= i < BlocksPer(a.kind.desc) && b == Block(Page(b), a.kind.desc, i);
      BlockLayout(Page(b), a.kind.desc, i, i);
    }
  }

  /** Different live pointers never share a byte. */
  lemma LiveDisjoint(x: View, b: nat, c: nat)
    requires Inv(x) && b in x.live && c in x.live && b < c
    ensures LiveAt(x, b) && b + Extent(x, b) <= c
  {
    hide ArenasOk, FreeOk, CountsOk, LiveOk, LiveAt, Extent;
    LiveRoom(x, b);
    LiveRoom(x, c);
    var p, q := Page(b), Page(c);
    if p == q {
      SameArenaDisjoint(x, b, c);
    } else {
      PagesApart(x, p, q);
    }
  }

  lemma SameArenaDisjoint(x: View, b: nat, c: nat)
    requires Inv(x) && b in x.live && c in x.live && b < c && Page(b) == Page(c)
    ensures LiveAt(x, b) && b + Extent(x, b) <= c
  {
    assert LiveAt(x, b) && LiveAt(x, c) && ArenaOk(Page(b), x.arenas[Page(b)]);
    var a := x.arenas[Page(b)];
    if a.kind.Small? {
      var d := a.kind.desc;
      var i :| 0 <= i < BlocksPer(d) && b == Block(Page(b), d, i);
      var j :| 0 <= j < BlocksPer(d) && c == Block(Page(b), d, j);
      BlockLayout(Page(b), d, i, j);
      BlockLayout(Page(b), d, j, i);
    }
  }

  lemma PagesApart(x: View, p: nat, q: nat)
    requires ArenasOk(x) && p in x.arenas && q in x.arenas && p < q
    ensures p + PageCount(x.arenas[p]) * PG_SIZE <= q
  {
    if Vpn(p) + PageCount(x.arenas[p]) > Vpn(q) {
      assert Vpn(p) <= Vpn(q) && ArenaOk(q, x.arenas[q]);
      assert InArena(Vpn(q), p, x.arenas[p]) && InArena(Vpn(q), q, x.arenas[q]);
      assert false;
    }
    assert p == Vpn(p) * PG_SIZE && q == Vpn(q) * PG_SIZE;
  }

  /** No free list refers into a page that belongs to no arena. */
  lemma FreeInsideArenas(x: View, d: nat, b: nat)
    requires Inv(x) && d < DESC_CNT && b in x.free[d]
    ensures Vpn(b) in x.pages && Page(b) in x.arenas && b !in x.live
  {
    assert IsSmall(x, Page(b), d) && IsBlock(b, Page(b), d);
    var i :| 0 <= i < BlocksPer(d) && b == Block(Page(b), d, i);
    assert Block(Page(b), d, i) !in x.live;
    assert Vpn(Page(b)) == Vpn(b);
    assert InArena(Vpn(b), Page(b), x.arenas[Page(b)]);
  }

  /** A class's free list holds exactly the blocks of its arenas that are not live, each once, and every arena
      counts its own. */
  lemma FreeExactly(x: View, p: nat, d: nat, i: nat)
    requires Inv(x) && IsSmall(x, p, d) && i < BlocksPer(d)
    ensures Block(p, d, i) in x.free[d] <==> Block(p, d, i) !in x.live
    ensures x.arenas[p].cnt == CountFree(x.free[d], p, d, BlocksPer(d))
    ensures forall j, k :: 0 <= j < k < |x.free[d]| ==> x.free[d][j] != x.free[d][k]
  {
    hide Block, Page;
  }
}
