/** How file_write of fs/file.c finds room: the three ways of adding blocks, and none. */
module FileGrowth {
  import opened Bitmaps
  import opened Outcomes
  import opened Disks
  import opened Partitions
  import opened FileBlocks

  ghost predicate TailTaken(lo: nat, cnt: nat, bytesLen: nat, taken: set<nat>) {
    && lo in taken
    && forall b :: lo + cnt <= b < lo + 8 * bytesLen ==> b in taken
  }

  /** block_bitmap_alloc and bitmap_sync, with what they mean for the sectors taken so far. */
  method NextBlock(p: Partition, ghost q: seq<word>, ghost taken0: set<nat>)
    returns (r: Outcome<word>, ghost q': seq<word>)
    requires p.Shape() && TailTaken(p.dataLba, p.dataCnt, p.blockMap.bytesLen, taken0)
    requires Fresh(q, taken0, p.Taken(), p.dataLba, p.dataLba + p.dataCnt)
    modifies p.blockMap.bits, p.blockArea
    ensures r == Halted <==> FreeCount(old(p.blockMap.Map())) == 0
    ensures r != Null
    ensures r.Done? && old(p.BlocksStored()) ==> p.BlocksStored()
    ensures r.Done? ==>
      && q' == q + [r.value] && Fresh(q', taken0, p.Taken(), p.dataLba, p.dataLba + p.dataCnt)
      && r.value > p.dataLba && FreeCount(p.blockMap.Map()) == FreeCount(old(p.blockMap.Map())) - 1
  {
    hide Fresh;
    var lba := p.BlockTake();
    if lba == Halted {
      return Halted, q;
    }
    InsidePartition(q, taken0, old(p.Taken()), p.dataLba, p.dataCnt, p.blockMap.bytesLen, lba.value);
    FreshMore(q, taken0, old(p.Taken()), p.dataLba, p.dataLba + p.dataCnt, lba.value);
    return Done(lba.value), q + [lba.value];
  }

  lemma InsidePartition(q: seq<word>, taken0: set<nat>, taken: set<nat>, lo: nat, cnt: nat, bytesLen: nat, b: nat)
    requires TailTaken(lo, cnt, bytesLen, taken0) && Fresh(q, taken0, taken, lo, lo + cnt)
    requires b !in taken && lo <= b < lo + 8 * bytesLen
    ensures lo < b < lo + cnt
  {
  }

  /** The file has `will` blocks where it had `used`; what it had it keeps, what it got was free, `all`
      lists the blocks from the last old one on, and only the table's sector was written. */
  ghost predicate Grown(lo: nat, hi: nat, s0: seq<word>, d0: seq<Sector>, taken0: set<nat>, used: nat, s: seq<word>,
                        d: seq<Sector>, taken: set<nat>, will: nat, all: seq<word>) {
    && |s0| == 13 && Mapped(lo, hi, s, d, will) && 0 < used <= will && |all| == MAX_BLOCKS && |d| == |d0|
    && Chain(s, d)[..used] == Chain(s0, d0)[..used]
    && Footprint(s0, d0) <= Footprint(s, d) && taken == taken0 + Footprint(s, d)
    && (Footprint(s, d) - Footprint(s0, d0)) !! taken0
    && (forall i :: used - 1 <= i < will ==> all[i] == Chain(s, d)[i])
    && forall b :: 0 <= b < |d| && (b == 0 || b != s[12]) ==> d[b] == d0[b]
  }

  /** What all ways of growing have to show. */
  lemma GrownBy(lo: nat, hi: nat, s0: seq<word>, d0: seq<Sector>, taken0: set<nat>, used: nat, s: seq<word>,
                d: seq<Sector>, taken: set<nat>, all: seq<word>, t: seq<word>, q: seq<word>)
    requires |s0| == 13 && Mapped(lo, hi, s0, d0, used) && Footprint(s0, d0) <= taken0 && used > 0
    requires |s| == 13 && |d| == |d0| && used + |q| <= MAX_BLOCKS && |all| == MAX_BLOCKS
    requires Fresh(t + q, taken0, taken, lo, hi) && |t| <= 1
    requires s[12] == if t != [] then t[0] else s0[12]
    requires t != [] <==> used <= DIRECT < used + |q|
    requires Chain(s, d) == Chain(s0, d0)[..used] + q + seq(MAX_BLOCKS - used - |q|, _ => 0)
    requires all[used - 1] == Chain(s0, d0)[used - 1] && all[used..used + |q|] == q
    requires forall b :: 0 <= b < |d| && (b == 0 || b != s[12]) ==> d[b] == d0[b]
    ensures Grown(lo, hi, s0, d0, taken0, used, s, d, taken, used + |q|, all)
  {
    hide Chain, Footprint, InFootprint, Mapped;
    Appended(lo, hi, s0, d0, used, s, d, t, q, taken0, taken);
    AppendedNew(lo, hi, s0, d0, used, s, d, t, q);
    assert Chain(s, d)[..used] == Chain(s0, d0)[..used];
    assert Chain(s, d)[used - 1] == Chain(s, d)[..used][used - 1] == all[used - 1];
    assert (Footprint(s, d) - Footprint(s0, d0)) !! taken0;
    forall i | used <= i < used + |q| ensures all[i] == Chain(s, d)[i] {
      assert all[used..used + |q|][i - used] == all[i];
    }
  }

  lemma AppendedNew(lo: nat, hi: nat, s0: seq<word>, d0: seq<Sector>, n: nat, s: seq<word>, d: seq<Sector>,
                    t: seq<word>, q: seq<word>)
    requires Mapped(lo, hi, s0, d0, n) && |s| == 13 && n + |q| <= MAX_BLOCKS && |t| <= 1
    requires forall b :: b in t + q ==> lo <= b
    requires s[12] == if t != [] then t[0] else s0[12]
    requires t != [] ==> n <= DIRECT
    requires Chain(s, d) == Chain(s0, d0)[..n] + q + seq(MAX_BLOCKS - n - |q|, _ => 0)
    ensures forall b :: b in Footprint(s, d) - Footprint(s0, d0) ==> b in t + q
  {
    AppendedFootprint(lo, hi, s0, d0, n, s, d, t, q);
  }

  // ---------------------------------------------------------------- no new block

  method SameBlocks(p: Partition, nd: Inode, used: nat) returns (ok: bool, all: seq<word>)
    requires p.Shape() && nd.Valid() && 0 < used
    requires Mapped(p.dataLba, p.dataLba + p.dataCnt, nd.sectors, p.disk[..], used)
    ensures ok && |all| == MAX_BLOCKS && all[used - 1] == Chain(nd.sectors, p.disk[..])[used - 1]
  {
    all := seq(MAX_BLOCKS, _ => 0);
    if used <= DIRECT {
      all := all[used - 1 := nd.sectors[used - 1]];
    } else {
      if nd.sectors[12] == 0 {
        return false, all;
      }
      all := all[..DIRECT] + Decode(p.disk[nd.sectors[12]]);
    }
    ok := true;
  }

  // ---------------------------------------------------------------- first way: twelve blocks are enough

  lemma DirectChain(lo: nat, hi: nat, s0: seq<word>, d: seq<Sector>, used: nat, q: seq<word>)
    requires Mapped(lo, hi, s0, d, used) && used + |q| <= DIRECT
    ensures Chain(s0[..used] + q + s0[used + |q|..], d) ==
      Chain(s0, d)[..used] + q + seq(MAX_BLOCKS - used - |q|, _ => 0)
  {
    var c := Chain(s0, d);
    assert forall i :: 0 <= i < DIRECT ==> c[i] == s0[i];
  }

  method GrowDirect(p: Partition, nd: Inode, used: nat, will: nat) returns (ok: bool, all: seq<word>)
    requires p.Shape() && nd.Valid() && 0 < used < will <= DIRECT
    requires Mapped(p.dataLba, p.dataLba + p.dataCnt, nd.sectors, p.disk[..], used)
    requires Footprint(nd.sectors, p.disk[..]) <= p.Taken()
    requires TailTaken(p.dataLba, p.dataCnt, p.blockMap.bytesLen, p.Taken())
    modifies p.blockMap.bits, p.blockArea, nd`sectors
    ensures ok && old(p.BlocksStored()) ==> p.BlocksStored()
    ensures ok <==> FreeCount(old(p.blockMap.Map())) >= will - used
    ensures ok ==> Grown(p.dataLba, p.dataLba + p.dataCnt, old(nd.sectors), p.disk[..], old(p.Taken()), used,
                         nd.sectors, p.disk[..], p.Taken(), will, all)
  {
    hide Grown, Fresh, TailTaken, Footprint, Chain, ChainOk, FreeCount, Partition.BlocksStored;
    ghost var s0, d0, taken0, free0 := nd.sectors, p.disk[..], p.Taken(), FreeCount(p.blockMap.Map());
    ghost var q: seq<word> := [];
    DirectRest(p.dataLba, p.dataLba + p.dataCnt, s0, d0, used);
    FreshNone(taken0, p.dataLba, p.dataLba + p.dataCnt);
    all := seq(MAX_BLOCKS, _ => 0);
    if nd.sectors[used - 1] == 0 {
      return false, all;
    }
    all := all[used - 1 := nd.sectors[used - 1]];
    var idx := used;
    while idx < will
      invariant used <= idx <= will && |q| == idx - used && |all| == MAX_BLOCKS
      invariant nd.sectors == s0[..used] + q + s0[idx..]
      invariant all[used - 1] == s0[used - 1] && all[used..idx] == q
      invariant p.disk[..] == d0 && (old(p.BlocksStored()) ==> p.BlocksStored())
      invariant Fresh(q, taken0, p.Taken(), p.dataLba, p.dataLba + p.dataCnt)
      invariant free0 == FreeCount(p.blockMap.Map()) + (idx - used)
    {
      var lba;
      lba, q := NextBlock(p, q, taken0);
      if lba == Halted {
        return false, all;
      }
      if nd.sectors[idx] != 0 {
        assert false;
        return false, all;
      }
      nd.sectors := nd.sectors[idx := lba.value];
      all := all[idx := lba.value];
      idx := idx + 1;
    }
    DirectChain(p.dataLba, p.dataLba + p.dataCnt, s0, d0, used, q);
    assert [] + q == q;
    GrownBy(p.dataLba, p.dataLba + p.dataCnt, s0, d0, taken0, used, nd.sectors, d0, p.Taken(), all, [], q);
    ok := true;
  }

  lemma DirectRest(lo: nat, hi: nat, s: seq<word>, d: seq<Sector>, used: nat)
    requires Mapped(lo, hi, s, d, used) && 0 < used <= DIRECT
    ensures s[12] == 0 && (forall i :: 0 <= i < DIRECT ==> (s[i] == 0 <==> i >= used))
    ensures Chain(s, d)[used - 1] == s[used - 1]
  {
    assert forall i :: 0 <= i < DIRECT ==> Chain(s, d)[i] == s[i];
  }

  // ---------------------------------------------------------------- second way: from direct blocks into the table

  function Min(a: nat, b: nat): nat {
    if a < b then a else b
  }

  /** i_sectors when `q` was handed out from block `used` on, and `t` became the table. */
  function AcrossSectors(s0: seq<word>, used: nat, q: seq<word>, t: word): (s: seq<word>)
    requires |s0| == 13 && used <= DIRECT
    ensures |s| == 13
  {
    var m := Min(|q|, DIRECT - used);
    s0[..used] + q[..m] + s0[used + m..DIRECT] + [t]
  }

  lemma AcrossStep(s0: seq<word>, used: nat, q: seq<word>, t: word, b: word)
    requires |s0| == 13 && used <= DIRECT
    ensures AcrossSectors(s0, used, q + [b], t) ==
      if used + |q| < DIRECT then AcrossSectors(s0, used, q, t)[used + |q| := b] else AcrossSectors(s0, used, q, t)
  {
    if used + |q| >= DIRECT {
      assert (q + [b])[..DIRECT - used] == q[..DIRECT - used];
    } else {
      assert (q + [b])[..|q| + 1] == q + [b];
    }
  }

  /** all_blocks when `q` was handed out from block `used` on. */
  function AllAfter(all0: seq<word>, used: nat, q: seq<word>): (all: seq<word>)
    requires used + |q| <= |all0|
    ensures |all| == |all0|
  {
    all0[..used] + q + all0[used + |q|..]
  }

  lemma AllStep(all0: seq<word>, used: nat, q: seq<word>, b: word)
    requires used + |q| < |all0|
    ensures AllAfter(all0, used, q + [b]) == AllAfter(all0, used, q)[used + |q| := b]
    ensures AllAfter(all0, used, q)[used..used + |q|] == q
  {
  }

  lemma AcrossChain(lo: nat, hi: nat, s0: seq<word>, d0: seq<Sector>, used: nat, q: seq<word>, t: word, all: seq<word>,
                    d: seq<Sector>)
    requires Mapped(lo, hi, s0, d0, used) && 0 < used <= DIRECT < used + |q| <= MAX_BLOCKS
    requires |all| == MAX_BLOCKS && all[DIRECT..] == q[DIRECT - used..] + seq(MAX_BLOCKS - used - |q|, _ => 0)
    requires 0 < t < |d| && d[t] == Encode(all[DIRECT..])
    ensures Chain(AcrossSectors(s0, used, q, t), d) == Chain(s0, d0)[..used] + q + seq(MAX_BLOCKS - used - |q|, _ => 0)
  {
    DecodeEncode(all[DIRECT..]);
    hide Decode, Encode;
    var s := AcrossSectors(s0, used, q, t);
    assert s[..DIRECT] == s0[..used] + q[..DIRECT - used];
    assert Chain(s0, d0)[..used] == s0[..used];
    assert q[..DIRECT - used] + q[DIRECT - used..] == q;
  }

  lemma AllTail(all0: seq<word>, used: nat, q: seq<word>)
    requires |all0| == MAX_BLOCKS && used <= DIRECT <= used + |q| <= MAX_BLOCKS
    requires forall i :: used <= i < MAX_BLOCKS ==> all0[i] == 0
    ensures AllAfter(all0, used, q)[DIRECT..] == q[DIRECT - used..] + seq(MAX_BLOCKS - used - |q|, _ => 0)
  {
  }

  method GrowAcross(p: Partition, nd: Inode, used: nat, will: nat) returns (ok: bool, all: seq<word>)
    requires p.Shape() && nd.Valid() && 0 < used <= DIRECT < will <= MAX_BLOCKS
    requires Mapped(p.dataLba, p.dataLba + p.dataCnt, nd.sectors, p.disk[..], used)
    requires Footprint(nd.sectors, p.disk[..]) <= p.Taken()
    requires TailTaken(p.dataLba, p.dataCnt, p.blockMap.bytesLen, p.Taken())
    modifies p.disk, p.blockMap.bits, p.blockArea, nd`sectors
    ensures ok && old(p.BlocksStored()) ==> p.BlocksStored()
    ensures ok <==> FreeCount(old(p.blockMap.Map())) >= will - used + 1
    ensures ok ==> Grown(p.dataLba, p.dataLba + p.dataCnt, old(nd.sectors), old(p.disk[..]), old(p.Taken()), used,
                         nd.sectors, p.disk[..], p.Taken(), will, all)
  {
    hide Grown, Fresh, TailTaken, Footprint, Chain, ChainOk, FreeCount, Partition.BlocksStored, Encode, AllAfter,
      AcrossSectors, Partition.Taken;
    ghost var s0, d0, taken0, free0 := nd.sectors, p.disk[..], p.Taken(), FreeCount(p.blockMap.Map());
    ghost var lo, hi := p.dataLba, p.dataLba + p.dataCnt;
    DirectRest(lo, hi, s0, d0, used);
    FreshNone(taken0, lo, hi);
    all := seq(MAX_BLOCKS, _ => 0);
    all := all[used - 1 := nd.sectors[used - 1]];
    ghost var all0 := all;
    ghost var got: seq<word> := [];
    var table;
    table, got := NextBlock(p, got, taken0);
    if table == Halted {
      return false, all;
    }
    if nd.sectors[12] != 0 {
      assert false;
      return false, all;
    }
    var t := table.value;
    nd.sectors := nd.sectors[12 := t];
    ghost var q: seq<word> := [];
    AcrossStart(s0, used, t, all0);
    var idx := used;
    while idx < will
      invariant used <= idx <= will && |q| == idx - used
      invariant got == [t] + q && Fresh(got, taken0, p.Taken(), lo, hi)
      invariant nd.sectors == AcrossSectors(s0, used, q, t) && all == AllAfter(all0, used, q)
      invariant p.disk[..] == d0 && (old(p.BlocksStored()) ==> p.BlocksStored())
      invariant free0 == FreeCount(p.blockMap.Map()) + (idx - used) + 1
    {
      var lba;
      lba, got := NextBlock(p, got, taken0);
      if lba == Halted {
        return false, all;
      }
      AcrossStep(s0, used, q, t, lba.value);
      AllStep(all0, used, q, lba.value);
      if idx < DIRECT {
        AcrossAt(s0, used, q, t, idx);
        if nd.sectors[idx] != 0 {
          assert false;
          return false, all;
        }
        nd.sectors := nd.sectors[idx := lba.value];
      }
      all := all[idx := lba.value];
      q := q + [lba.value];
      idx := idx + 1;
    }
    TableInside(got, t, taken0, p.Taken(), lo, hi);
    AllTail(all0, used, q);
    p.disk[t] := Encode(all[DIRECT..]);
    AcrossChain(lo, hi, s0, d0, used, q, t, all, p.disk[..]);
    AllEnds(all0, used, q);
    LastSector(s0, used, q, t);
    GrownBy(lo, hi, s0, d0, taken0, used, nd.sectors, p.disk[..], p.Taken(), all, [t], q);
    ok := true;
  }

  lemma AcrossStart(s0: seq<word>, used: nat, t: word, all0: seq<word>)
    requires |s0| == 13 && used <= DIRECT && used <= |all0|
    ensures s0[12 := t] == AcrossSectors(s0, used, [], t) && all0 == AllAfter(all0, used, [])
  {
  }

  /** A direct block that was not handed out yet is as it was. */
  lemma AcrossAt(s0: seq<word>, used: nat, q: seq<word>, t: word, idx: nat)
    requires |s0| == 13 && used + |q| <= idx < DIRECT
    ensures AcrossSectors(s0, used, q, t)[idx] == s0[idx]
  {
  }

  lemma LastSector(s0: seq<word>, used: nat, q: seq<word>, t: word)
    requires |s0| == 13 && used <= DIRECT
    ensures AcrossSectors(s0, used, q, t)[12] == t
  {
  }

  lemma AllEnds(all0: seq<word>, used: nat, q: seq<word>)
    requires 0 < used && used + |q| <= |all0|
    ensures var all := AllAfter(all0, used, q); all[used - 1] == all0[used - 1] && all[used..used + |q|] == q
  {
  }

  lemma TableInside(got: seq<word>, t: word, taken0: set<nat>, taken: set<nat>, lo: nat, hi: nat)
    requires got != [] && got[0] == t && Fresh(got, taken0, taken, lo, hi)
    ensures lo <= t < hi
  {
    assert t in got;
  }

  // ---------------------------------------------------------------- third way: inside the table

  method GrowIndirect(p: Partition, nd: Inode, used: nat, will: nat) returns (ok: bool, all: seq<word>)
    requires p.Shape() && nd.Valid() && DIRECT < used < will <= MAX_BLOCKS
    requires Mapped(p.dataLba, p.dataLba + p.dataCnt, nd.sectors, p.disk[..], used)
    requires Footprint(nd.sectors, p.disk[..]) <= p.Taken()
    requires TailTaken(p.dataLba, p.dataCnt, p.blockMap.bytesLen, p.Taken())
    modifies p.disk, p.blockMap.bits, p.blockArea
    ensures ok && old(p.BlocksStored()) ==> p.BlocksStored()
    ensures ok <==> FreeCount(old(p.blockMap.Map())) >= will - used
    ensures ok ==> Grown(p.dataLba, p.dataLba + p.dataCnt, old(nd.sectors), old(p.disk[..]), old(p.Taken()), used,
                         nd.sectors, p.disk[..], p.Taken(), will, all)
  {
    hide Grown, Fresh, TailTaken, Footprint, Chain, ChainOk, FreeCount, Partition.BlocksStored, Encode, Decode,
      AllAfter, Partition.Taken;
    ghost var s0, d0, taken0, free0 := nd.sectors, p.disk[..], p.Taken(), FreeCount(p.blockMap.Map());
    ghost var lo, hi := p.dataLba, p.dataLba + p.dataCnt;
    FreshNone(taken0, lo, hi);
    all := seq(MAX_BLOCKS, _ => 0);
    if nd.sectors[12] == 0 {
      return false, all;
    }
    var t := nd.sectors[12];
    all := all[..DIRECT] + Decode(p.disk[t]);
    ghost var all0 := all;
    IndirectStart(lo, hi, s0, d0, used, all0);
    ghost var q: seq<word> := [];
    var idx := used;
    while idx < will
      invariant used <= idx <= will && |q| == idx - used && |all| == MAX_BLOCKS
      invariant Fresh(q, taken0, p.Taken(), lo, hi)
      invariant all == AllAfter(all0, used, q)
      invariant p.disk[..] == d0 && (old(p.BlocksStored()) ==> p.BlocksStored())
      invariant free0 == FreeCount(p.blockMap.Map()) + (idx - used)
    {
      var lba;
      ghost var q1;
      lba, q1 := NextBlock(p, q, taken0);
      if lba == Halted {
        return false, all;
      }
      AllStep(all0, used, q, lba.value);
      all := all[idx := lba.value];
      q := q1;
      idx := idx + 1;
    }
    p.disk[t] := Encode(all[DIRECT..]);
    IndirectChain(lo, hi, s0, d0, used, q, all0, p.disk[..]);
    AllEnds(all0, used, q);
    assert [] + q == q;
    GrownBy(lo, hi, s0, d0, taken0, used, nd.sectors, p.disk[..], p.Taken(), all, [], q);
    ok := true;
  }

  lemma IndirectStart(lo: nat, hi: nat, s0: seq<word>, d0: seq<Sector>, used: nat, all0: seq<word>)
    requires Mapped(lo, hi, s0, d0, used) && DIRECT < used && all0 == seq(DIRECT, _ => 0) + Decode(d0[s0[12]])
    ensures |all0| == MAX_BLOCKS && all0 == AllAfter(all0, used, [])
    ensures all0[DIRECT..] == Chain(s0, d0)[DIRECT..] && forall i :: used <= i < MAX_BLOCKS ==> all0[i] == 0
    ensures all0[used - 1] == Chain(s0, d0)[used - 1]
  {
    hide Decode;
    assert forall i :: DIRECT <= i < MAX_BLOCKS ==> all0[i] == Chain(s0, d0)[i];
  }

  lemma IndirectChain(lo: nat, hi: nat, s0: seq<word>, d0: seq<Sector>, used: nat, q: seq<word>, all0: seq<word>,
                      d: seq<Sector>)
    requires Mapped(lo, hi, s0, d0, used) && DIRECT < used && used + |q| <= MAX_BLOCKS == |all0| && |d| == |d0|
    requires all0[DIRECT..] == Chain(s0, d0)[DIRECT..] && forall i :: used <= i < MAX_BLOCKS ==> all0[i] == 0
    requires d[s0[12]] == Encode(AllAfter(all0, used, q)[DIRECT..])
    ensures Chain(s0, d) == Chain(s0, d0)[..used] + q + seq(MAX_BLOCKS - used - |q|, _ => 0)
  {
    hide Chain, ChainOk, Decode, Encode;
    var c0, all := Chain(s0, d0), AllAfter(all0, used, q);
    DecodeEncode(all[DIRECT..]);
    TableChain(lo, hi, s0, d0, used, d0);
    TableChain(lo, hi, s0, d0, used, d);
    SpliceTail(c0, all0, used, q);
  }

  lemma TableChain(lo: nat, hi: nat, s: seq<word>, d0: seq<Sector>, n: nat, d: seq<Sector>)
    requires Mapped(lo, hi, s, d0, n) && DIRECT < n && |d| == |d0|
    ensures Chain(s, d) == s[..DIRECT] + Decode(d[s[12]])
  {
    hide Decode;
  }

  lemma SpliceTail(c0: seq<word>, all0: seq<word>, used: nat, q: seq<word>)
    requires |c0| == |all0| == MAX_BLOCKS && DIRECT <= used && used + |q| <= MAX_BLOCKS
    requires all0[DIRECT..] == c0[DIRECT..] && forall i :: used <= i < MAX_BLOCKS ==> all0[i] == 0
    ensures c0[..DIRECT] + AllAfter(all0, used, q)[DIRECT..] == c0[..used] + q + seq(MAX_BLOCKS - used - |q|, _ => 0)
  {
    var l := c0[..DIRECT] + AllAfter(all0, used, q)[DIRECT..];
    var r := c0[..used] + q + seq(MAX_BLOCKS - used - |q|, _ => 0);
    forall i | 0 <= i < MAX_BLOCKS ensures l[i] == r[i] {
      if DIRECT <= i {
        assert all0[i] == all0[DIRECT..][i - DIRECT] == c0[DIRECT..][i - DIRECT] == c0[i];
        assert l[i] == AllAfter(all0, used, q)[i];
      }
    }
    assert |l| == |r|;
  }
}
