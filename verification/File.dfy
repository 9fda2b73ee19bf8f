/** file_write, file_read and sys_lseek of fs/file.c and fs/fs.c. */
module Files {
  import opened Bitmaps
  import opened Outcomes
  import opened Disks
  import opened InodeTable
  import opened Partitions
  import opened FileBlocks
  import opened FileGrowth

  const MAX_FILE: nat := MAX_BLOCKS * SECTOR_SIZE  // 71680

  /** struct file, of which fd_flag plays no part here. */
  class File {
    var pos: word
    const inode: Inode

    constructor (inode: Inode)
      ensures this.inode == inode && pos == 0
    {
      this.inode, pos := inode, 0;
    }
  }

  /** What file_write relies on: a well-formed file whose sectors are taken, and nothing free past the end of the
      partition. */
  ghost predicate Writable(p: Partition, nd: Inode)
    requires p.Shape()
    reads p.disk, p.blockMap.bits, nd
  {
    && FileOk(p.dataLba, p.dataLba + p.dataCnt, nd.sectors, nd.size, p.disk[..])
    && Footprint(nd.sectors, p.disk[..]) <= p.Taken()
    && TailTaken(p.dataLba, p.dataCnt, p.blockMap.bytesLen, p.Taken())
  }

  // ---------------------------------------------------------------- the write loop

  /** One turn of the write loop: the bytes before are as they were, the chunk follows them. */
  lemma ChunkWritten(c: seq<word>, n: nat, d: seq<Sector>, d': seq<Sector>, size: nat, base: seq<byte>,
                     chunk: seq<byte>)
    requires n <= |c| && size / SECTOR_SIZE < n && size % SECTOR_SIZE + |chunk| <= SECTOR_SIZE == |base|
    requires (forall i :: 0 <= i < n ==> c[i] < |d|) && forall i, j :: 0 <= i < j < n ==> c[i] != c[j]
    requires var b := c[size / SECTOR_SIZE];
      && (size % SECTOR_SIZE == 0 || base == d[b])
      && d' == d[b := Splice(base, size % SECTOR_SIZE, chunk)]
    ensures forall k :: 0 <= k < size ==> ByteOf(c, d', k) == ByteOf(c, d, k)
    ensures forall k :: size <= k < size + |chunk| ==> ByteOf(c, d', k) == chunk[k - size]
  {
    forall k | 0 <= k < size ensures ByteOf(c, d', k) == ByteOf(c, d, k) {
      assert k / SECTOR_SIZE <= size / SECTOR_SIZE;
    }
    forall k | size <= k < size + |chunk| ensures ByteOf(c, d', k) == chunk[k - size] {
      assert k / SECTOR_SIZE == size / SECTOR_SIZE && k % SECTOR_SIZE == size % SECTOR_SIZE + (k - size);
    }
  }

  /** The chain's own sector is written, so the chain stays and so does every sector outside it. */
  lemma DataWritten(lo: nat, hi: nat, s: seq<word>, d: seq<Sector>, n: nat, i: nat, sector: Sector)
    requires Mapped(lo, hi, s, d, n) && i < n
    ensures Chain(s, d)[i] < |d|
    ensures Chain(s, d[Chain(s, d)[i] := sector]) == Chain(s, d) && Mapped(lo, hi, s, d[Chain(s, d)[i] := sector], n)
  {
    hide Decode;
    ChainFrame(s, d, d[Chain(s, d)[i] := sector]);
  }

  /** The end of one turn: the sector goes to the disk, size and position move on. */
  method WriteChunk(p: Partition, f: File, secLba: word, ioBuf: seq<byte>, chunk: seq<byte>, ghost n: nat)
    requires p.Shape() && f.inode.Valid() && f.inode.size + |chunk| < MAX_FILE && f.pos == U32(f.inode.size - 1)
    requires Mapped(p.dataLba, p.dataLba + p.dataCnt, f.inode.sectors, p.disk[..], n)
    requires f.inode.size / SECTOR_SIZE < n <= MAX_BLOCKS
    requires secLba == Chain(f.inode.sectors, p.disk[..])[f.inode.size / SECTOR_SIZE] && secLba < p.disk.Length
    requires f.inode.size % SECTOR_SIZE + |chunk| <= SECTOR_SIZE == |ioBuf|
    requires f.inode.size % SECTOR_SIZE == 0 || ioBuf == p.disk[secLba]
    modifies p.disk, f.inode`size, f`pos
    ensures f.inode.size == old(f.inode.size) + |chunk| && f.pos == U32(f.inode.size - 1)
    ensures Mapped(p.dataLba, p.dataLba + p.dataCnt, f.inode.sectors, p.disk[..], n)
    ensures var c := Chain(f.inode.sectors, old(p.disk[..]));
      && Chain(f.inode.sectors, p.disk[..]) == c
      && (forall k :: 0 <= k < old(f.inode.size) ==> ByteOf(c, p.disk[..], k) == ByteOf(c, old(p.disk[..]), k))
      && (forall k :: old(f.inode.size) <= k < f.inode.size ==>
            ByteOf(c, p.disk[..], k) == chunk[k - old(f.inode.size)])
    ensures forall b :: 0 <= b < p.disk.Length && b != secLba ==> p.disk[b] == old(p.disk[b])
  {
    hide Mapped, Chain, ByteOf, Splice, U32;
    ghost var s, d := f.inode.sectors, p.disk[..];
    ghost var lo, hi, size := p.dataLba, p.dataLba + p.dataCnt, f.inode.size;
    MappedAt(lo, hi, s, d, n);
    var out: Sector := Splice(ioBuf, f.inode.size % SECTOR_SIZE, chunk);
    DataWritten(lo, hi, s, d, n, f.inode.size / SECTOR_SIZE, out);
    ChunkWritten(Chain(s, d), n, d, d[secLba := out], f.inode.size, ioBuf, chunk);
    PosAdvances(f.inode.size, |chunk|);
    p.disk[secLba] := out;
    assert p.disk[..] == d[secLba := out];
    f.inode.size := f.inode.size + |chunk|;
    f.pos := U32(f.pos + |chunk|);
  }

  /** The loop at the end of file_write. */
  method WriteData(p: Partition, f: File, all: seq<word>, src: seq<byte>, ghost n: nat)
    requires p.Shape() && f.inode.Valid() && |all| == MAX_BLOCKS && f.inode.size + |src| < MAX_FILE
    requires Mapped(p.dataLba, p.dataLba + p.dataCnt, f.inode.sectors, p.disk[..], n)
    requires n == BlocksFor(f.inode.size + |src|)
    requires forall i :: f.inode.size / SECTOR_SIZE <= i < n ==> all[i] == Chain(f.inode.sectors, p.disk[..])[i]
    modifies p.disk, f.inode`size, f`pos
    ensures f.inode.size == old(f.inode.size) + |src| && f.pos == U32(f.inode.size - 1)
    ensures Chain(f.inode.sectors, p.disk[..]) == Chain(f.inode.sectors, old(p.disk[..]))
    ensures Mapped(p.dataLba, p.dataLba + p.dataCnt, f.inode.sectors, p.disk[..], n)
    ensures var c := Chain(f.inode.sectors, old(p.disk[..]));
      && (forall k :: 0 <= k < old(f.inode.size) ==> ByteOf(c, p.disk[..], k) == ByteOf(c, old(p.disk[..]), k))
      && (forall k :: 0 <= k < |src| ==> ByteOf(c, p.disk[..], old(f.inode.size) + k) == src[k])
      && forall b :: 0 <= b < p.disk.Length && b !in c[..n] ==> p.disk[b] == old(p.disk[b])
  {
    hide Mapped, Chain, ByteOf, Splice, U32;
    ghost var s, d0, c := f.inode.sectors, p.disk[..], Chain(f.inode.sectors, p.disk[..]);
    ghost var size0 := f.inode.size;
    ghost var lo, hi := p.dataLba, p.dataLba + p.dataCnt;
    var first, written, left := true, 0, |src|;
    f.pos := U32(f.inode.size - 1);
    while written < |src|
      invariant 0 <= written <= |src| && left == |src| - written
      invariant f.inode.size == size0 + written && f.pos == U32(f.inode.size - 1)
      invariant first ==> written == 0
      invariant !first && written < |src| ==> f.inode.size % SECTOR_SIZE == 0
      invariant Chain(s, p.disk[..]) == c && Mapped(lo, hi, s, p.disk[..], n)
      invariant forall k :: 0 <= k < size0 ==> ByteOf(c, p.disk[..], k) == ByteOf(c, d0, k)
      invariant forall k :: size0 <= k < size0 + written ==> ByteOf(c, p.disk[..], k) == src[k - size0]
      invariant forall b :: 0 <= b < p.disk.Length && b !in c[..n] ==> p.disk[b] == d0[b]
    {
      ghost var d := p.disk[..];
      var ioBuf := Zeros(SECTOR_SIZE);
      var secIdx := f.inode.size / SECTOR_SIZE;
      BlocksEnough(f.inode.size, size0 + |src|, size0);
      MappedAt(lo, hi, s, d, n);
      var secLba := all[secIdx];
      var secOff := f.inode.size % SECTOR_SIZE;
      var secLeft := SECTOR_SIZE - secOff;
      var chunkSize := if left < secLeft then left else secLeft;
      if first {
        ioBuf := p.disk[secLba];
        first := false;
      }
      var chunk := src[written..written + chunkSize];
      WriteChunk(p, f, secLba, ioBuf, chunk, n);
      written := written + chunkSize;
      left := left - chunkSize;
    }
  }

  lemma PosAdvances(size: nat, chunk: nat)
    ensures U32(U32(size - 1) + chunk) == U32(size + chunk - 1)
  {
  }

  lemma BlocksEnough(size: nat, end: nat, size0: nat)
    requires size0 <= size <= end
    ensures size0 / SECTOR_SIZE <= size / SECTOR_SIZE < BlocksFor(end)
  {
  }

  lemma MappedAt(lo: nat, hi: nat, s: seq<word>, d: seq<Sector>, n: nat)
    requires Mapped(lo, hi, s, d, n)
    ensures |s| == 13 && n <= MAX_BLOCKS
    ensures var c := Chain(s, d);
      (forall i :: 0 <= i < n ==> c[i] < |d|) && forall i, j :: 0 <= i < j < n ==> c[i] != c[j]
  {
  }

  // ---------------------------------------------------------------- file_write

  /** The blocks file_write takes: one for a first write, those the new size calls for, and a table. */
  function NeededBlocks(s: seq<word>, size: nat, count: nat): nat
    requires |s| == 13
  {
    var used, will := BlocksFor(size), BlocksFor(size + count);
    (if s[0] == 0 then 1 else 0) + (will - used) + (if used <= DIRECT < will then 1 else 0)
  }

  method FirstBlock(p: Partition, nd: Inode) returns (ok: bool)
    requires p.Shape() && nd.Valid() && Writable(p, nd)
    modifies p.blockMap.bits, p.blockArea, nd`sectors
    ensures ok && old(p.BlocksStored()) ==> p.BlocksStored()
    ensures ok <==> old(nd.sectors[0]) != 0 || FreeCount(old(p.blockMap.Map())) > 0
    ensures ok ==>
      && nd.Valid() && Mapped(p.dataLba, p.dataLba + p.dataCnt, nd.sectors, p.disk[..], BlocksFor(nd.size))
      && Footprint(old(nd.sectors), p.disk[..]) <= Footprint(nd.sectors, p.disk[..])
      && p.Taken() == old(p.Taken()) + Footprint(nd.sectors, p.disk[..])
      && (Footprint(nd.sectors, p.disk[..]) - Footprint(old(nd.sectors), p.disk[..])) !! old(p.Taken())
      && FreeCount(p.blockMap.Map()) == FreeCount(old(p.blockMap.Map())) - (if old(nd.sectors[0]) == 0 then 1 else 0)
      && (old(nd.sectors[0]) != 0 ==> nd.sectors == old(nd.sectors))
  {
    hide Fresh, Chain, Footprint, FreeCount, Decode, Partition.Taken, ChainOk, TailTaken, Partition.BlocksStored;
    ghost var s0, d0, taken0 := nd.sectors, p.disk[..], p.Taken();
    ghost var lo, hi := p.dataLba, p.dataLba + p.dataCnt;
    if nd.sectors[0] == 0 {
      FreshNone(taken0, lo, hi);
      var lba;
      ghost var q;
      lba, q := NextBlock(p, [], taken0);
      if lba == Halted {
        return false;
      }
      nd.sectors := nd.sectors[0 := lba.value];
      if lba.value - p.dataLba == 0 {
        return false;
      }
      assert p.disk[..] == d0;
      FirstChain(lo, hi, s0, d0, lba.value);
      assert [] + q == q == [lba.value];
      Appended(lo, hi, s0, d0, 0, nd.sectors, d0, [], q, taken0, p.Taken());
      AppendedNew(lo, hi, s0, d0, 0, nd.sectors, d0, [], q);
      FreshOutside(q, taken0, p.Taken(), lo, hi);
    }
    ok := true;
  }

  lemma FreshOutside(q: seq<word>, taken0: set<nat>, taken: set<nat>, lo: nat, hi: nat)
    requires Fresh(q, taken0, taken, lo, hi)
    ensures forall b :: b in q ==> b !in taken0 && lo <= b
  {
  }

  lemma FirstChain(lo: nat, hi: nat, s0: seq<word>, d: seq<Sector>, b: word)
    requires Mapped(lo, hi, s0, d, 0)
    ensures Chain(s0[0 := b], d) == Chain(s0, d)[..0] + [b] + seq(MAX_BLOCKS - 1, _ => 0)
  {
    hide Decode;
    assert forall i :: 0 <= i < MAX_BLOCKS ==> Chain(s0, d)[i] == 0;
    assert forall i :: 0 <= i < DIRECT ==> s0[i] == Chain(s0, d)[i];
  }

  method AddBlocks(p: Partition, nd: Inode, used: nat, will: nat) returns (ok: bool, all: seq<word>)
    requires p.Shape() && nd.Valid() && 0 < used <= will <= MAX_BLOCKS
    requires Mapped(p.dataLba, p.dataLba + p.dataCnt, nd.sectors, p.disk[..], used)
    requires Footprint(nd.sectors, p.disk[..]) <= p.Taken()
    requires TailTaken(p.dataLba, p.dataCnt, p.blockMap.bytesLen, p.Taken())
    modifies p.disk, p.blockMap.bits, p.blockArea, nd`sectors
    ensures ok && old(p.BlocksStored()) ==> p.BlocksStored()
    ensures ok <==> FreeCount(old(p.blockMap.Map())) >= will - used + (if used <= DIRECT < will then 1 else 0)
    ensures ok ==> Grown(p.dataLba, p.dataLba + p.dataCnt, old(nd.sectors), old(p.disk[..]), old(p.Taken()), used,
                         nd.sectors, p.disk[..], p.Taken(), will, all)
  {
    hide Grown, Mapped, Footprint, FreeCount, Partition.Taken, TailTaken, Partition.BlocksStored;
    var addBlocks := will - used;
    if addBlocks == 0 {
      ok, all := SameBlocks(p, nd, used);
      GrownNot(p.dataLba, p.dataLba + p.dataCnt, nd.sectors, p.disk[..], p.Taken(), used, all);
    } else if will <= DIRECT {
      ok, all := GrowDirect(p, nd, used, will);
    } else if used <= DIRECT {
      ok, all := GrowAcross(p, nd, used, will);
    } else {
      ok, all := GrowIndirect(p, nd, used, will);
    }
  }

  lemma GrownNot(lo: nat, hi: nat, s: seq<word>, d: seq<Sector>, taken: set<nat>, used: nat, all: seq<word>)
    requires |s| == 13 && Mapped(lo, hi, s, d, used) && 0 < used && Footprint(s, d) <= taken && |all| == MAX_BLOCKS
    requires all[used - 1] == Chain(s, d)[used - 1]
    ensures Grown(lo, hi, s, d, taken, used, s, d, taken, used, all)
  {
  }

  /** The file after a write: longer by what was written, on sectors that were its own or free. */
  ghost predicate Written(lo: nat, hi: nat, s0: seq<word>, size0: nat, d0: seq<Sector>, taken0: set<nat>,
                          src: seq<byte>, s: seq<word>, size: nat, d: seq<Sector>, taken: set<nat>) {
    && |s0| == 13 && FileOk(lo, hi, s, size, d) && |d| == |d0|
    && Content(s, size, d) == Content(s0, size0, d0) + src
    && Footprint(s0, d0) <= Footprint(s, d) && taken == taken0 + Footprint(s, d)
    && (Footprint(s, d) - Footprint(s0, d0)) !! taken0
    && forall b :: lo <= b < |d| && b !in Footprint(s, d) ==> d[b] == d0[b]
  }

  /** file_write up to the point where the inode is synced. */
  method WriteBlocks(p: Partition, f: File, src: seq<byte>) returns (ok: bool)
    requires p.Shape() && f.inode.Valid() && Writable(p, f.inode) && f.inode.size + |src| <= MAX_FILE
    modifies p.disk, p.blockMap.bits, p.blockArea, f.inode`size, f.inode`sectors, f`pos
    ensures ok && old(p.BlocksStored()) ==> p.BlocksStored()
    ensures ok <==>
      && old(f.inode.size) + |src| < MAX_FILE
      && FreeCount(old(p.blockMap.Map())) >= NeededBlocks(old(f.inode.sectors), old(f.inode.size), |src|)
    ensures ok ==>
      && f.inode.Valid() && f.inode.size == old(f.inode.size) + |src| && f.pos == U32(f.inode.size - 1)
      && Written(p.dataLba, p.dataLba + p.dataCnt, old(f.inode.sectors), old(f.inode.size), old(p.disk[..]),
                 old(p.Taken()), src,
                 f.inode.sectors, f.inode.size, p.disk[..], p.Taken())
      && forall b :: 0 <= b < p.dataLba ==> p.disk[b] == old(p.disk[b])
  {
    hide Grown, Mapped, FileOk, Chain, Content, Footprint, FreeCount, Partition.Taken, TailTaken, ByteOf, U32,
      Partition.BlocksStored;
    ghost var s0, size0, d0, taken0 := f.inode.sectors, f.inode.size, p.disk[..], p.Taken();
    ghost var lo, hi := p.dataLba, p.dataLba + p.dataCnt;
    assert BlocksFor(size0) <= BlocksFor(size0 + |src|);
    ok := FirstBlock(p, f.inode);
    if !ok {
      return false;
    }
    ghost var s1, taken1 := f.inode.sectors, p.Taken();
    assert p.disk[..] == d0;
    TailKept(lo, p.dataCnt, p.blockMap.bytesLen, taken0, taken1);
    var used := f.inode.size / SECTOR_SIZE + 1;
    var will := (f.inode.size + |src|) / SECTOR_SIZE + 1;
    if will > MAX_BLOCKS {
      return false;
    }
    var all;
    ok, all := AddBlocks(p, f.inode, used, will);
    if !ok {
      return false;
    }
    ghost var s2, d2 := f.inode.sectors, p.disk[..];
    GrownGives(lo, hi, s1, d0, taken1, used, s2, d2, p.Taken(), will, all);
    WriteData(p, f, all, src, will);
    WrittenBytes(lo, hi, s0, size0, d0, s1, taken1, used, s2, d2, p.Taken(), will, all, src, p.disk[..]);
    WrittenSectors(lo, hi, s0, d0, taken0, s1, taken1, used, s2, d2, p.Taken(), will, all, p.disk[..]);
    FootprintRange(lo, hi, s2, p.disk[..], will);
    assert Written(lo, hi, s0, size0, d0, taken0, src, s2, size0 + |src|, p.disk[..], p.Taken());
  }

  lemma TailKept(lo: nat, cnt: nat, bytesLen: nat, taken0: set<nat>, taken: set<nat>)
    requires TailTaken(lo, cnt, bytesLen, taken0) && taken0 <= taken
    ensures TailTaken(lo, cnt, bytesLen, taken)
  {
  }

  /** The parts of Grown the write loop starts from. */
  lemma GrownGives(lo: nat, hi: nat, s0: seq<word>, d0: seq<Sector>, taken0: set<nat>, used: nat, s: seq<word>,
                   d: seq<Sector>, taken: set<nat>, will: nat, all: seq<word>)
    requires Grown(lo, hi, s0, d0, taken0, used, s, d, taken, will, all)
    ensures |s| == 13 && |all| == MAX_BLOCKS && will <= MAX_BLOCKS && Mapped(lo, hi, s, d, will)
    ensures forall i :: used - 1 <= i < will ==> all[i] == Chain(s, d)[i]
  {
  }

  lemma WrittenBytes(lo: nat, hi: nat, s0: seq<word>, size0: nat, d0: seq<Sector>, s1: seq<word>, taken1: set<nat>,
                     used: nat, s2: seq<word>, d2: seq<Sector>, taken2: set<nat>, will: nat, all: seq<word>,
                     src: seq<byte>, d: seq<Sector>)
    requires FileOk(lo, hi, s0, size0, d0) && used == BlocksFor(size0) && will == BlocksFor(size0 + |src|)
    requires size0 + |src| < MAX_FILE && (s0[0] != 0 ==> s1 == s0)
    requires Grown(lo, hi, s1, d0, taken1, used, s2, d2, taken2, will, all)
    requires Chain(s2, d) == Chain(s2, d2) && Mapped(lo, hi, s2, d, will)
    requires var c := Chain(s2, d2);
      && (forall k :: 0 <= k < size0 ==> ByteOf(c, d, k) == ByteOf(c, d2, k))
      && (forall k :: 0 <= k < |src| ==> ByteOf(c, d, size0 + k) == src[k])
    ensures FileOk(lo, hi, s2, size0 + |src|, d) && Content(s2, size0 + |src|, d) == Content(s0, size0, d0) + src
  {
    hide Decode, Footprint, InFootprint, Chain, ByteOf;
    var c, c0 := Chain(s2, d2), Chain(s0, d0);
    FirstInChain(s2, d2);
    forall k | 0 <= k < size0 ensures ByteOf(c, d2, k) == ByteOf(c0, d0, k) {
      OldByte(lo, hi, s0, d0, taken1, used, s2, d2, taken2, will, all, k);
    }
    var l, r := Content(s2, size0 + |src|, d), Content(s0, size0, d0) + src;
    forall k | 0 <= k < size0 + |src| ensures l[k] == r[k] {
      if k >= size0 {
        assert ByteOf(c, d, size0 + (k - size0)) == src[k - size0];
      }
    }
  }

  lemma FirstInChain(s: seq<word>, d: seq<Sector>)
    requires |s| == 13
    ensures Chain(s, d)[0] == s[0]
  {
  }

  lemma OldByte(lo: nat, hi: nat, s0: seq<word>, d0: seq<Sector>, taken0: set<nat>, used: nat, s: seq<word>,
                d: seq<Sector>, taken: set<nat>, will: nat, all: seq<word>, k: nat)
    requires Grown(lo, hi, s0, d0, taken0, used, s, d, taken, will, all) && k / SECTOR_SIZE < used
    ensures ByteOf(Chain(s, d), d, k) == ByteOf(Chain(s0, d0), d0, k)
  {
    hide Chain, Footprint, InFootprint;
    var i, c := k / SECTOR_SIZE, Chain(s, d);
    assert c[..used][i] == Chain(s0, d0)[..used][i];
    assert c[i] != 0 && c[i] != s[12];
  }

  lemma WrittenSectors(lo: nat, hi: nat, s0: seq<word>, d0: seq<Sector>, taken0: set<nat>, s1: seq<word>,
                       taken1: set<nat>, used: nat, s2: seq<word>, d2: seq<Sector>, taken2: set<nat>, will: nat,
                       all: seq<word>, d: seq<Sector>)
    requires |s0| == |s1| == 13 && Footprint(s0, d0) <= Footprint(s1, d0) && taken1 == taken0 + Footprint(s1, d0)
    requires (Footprint(s1, d0) - Footprint(s0, d0)) !! taken0
    requires Grown(lo, hi, s1, d0, taken1, used, s2, d2, taken2, will, all)
    requires Chain(s2, d) == Chain(s2, d2) && |d| == |d2|
    requires forall b :: 0 <= b < |d| && b !in Chain(s2, d2)[..will] ==> d[b] == d2[b]
    ensures Footprint(s0, d0) <= Footprint(s2, d) && taken2 == taken0 + Footprint(s2, d)
    ensures (Footprint(s2, d) - Footprint(s0, d0)) !! taken0
    ensures forall b :: 0 <= b < |d| && b !in Footprint(s2, d) ==> d[b] == d0[b]
  {
    hide Chain;
    FootprintIs(s2, d);
    FootprintIs(s2, d2);
    hide Footprint;
    assert Footprint(s2, d) == Footprint(s2, d2);
    forall b | 0 <= b < |d| && b !in Footprint(s2, d) ensures d[b] == d0[b] {
      assert b !in Chain(s2, d2)[..will] by {
        assert forall i :: 0 <= i < will ==> Chain(s2, d2)[i] != 0;
      }
    }
  }

  /** file_write of a buffer whose length added to the size does not wrap around. It appends exactly the buffer, or
      changes nothing; every data sector that is not its own and every other inode's record stay, and the block map on
      the disk stays the one in memory. It halts on a size of exactly 71680 and when free blocks run out. */
  method FileWrite(p: Partition, f: File, src: seq<byte>) returns (r: Outcome<word>)
    requires p.Shape() && f.inode.Valid() && Writable(p, f.inode) && f.inode.size + |src| < 0x1_0000_0000
    modifies p.disk, p.blockMap.bits, p.blockArea, f.inode`size, f.inode`sectors, f`pos
    ensures r != Halted && old(p.BlocksStored()) ==> p.BlocksStored()
    ensures r == Null <==> old(f.inode.size) + |src| > MAX_FILE
    ensures r == Null ==>
      unchanged(p.disk) && unchanged(p.blockMap.bits) && unchanged(p.blockArea) && unchanged(f.inode) && unchanged(f)
    ensures r == Halted <==>
      || old(f.inode.size) + |src| == MAX_FILE
      || (old(f.inode.size) + |src| < MAX_FILE
          && FreeCount(old(p.blockMap.Map())) < NeededBlocks(old(f.inode.sectors), old(f.inode.size), |src|))
    ensures r.Done? ==>
      && r.value == |src| && f.inode.Valid() && Writable(p, f.inode)
      && f.inode.size == old(f.inode.size) + |src| && f.pos == U32(f.inode.size - 1)
      && Written(p.dataLba, p.dataLba + p.dataCnt, old(f.inode.sectors), old(f.inode.size), old(p.disk[..]),
                 old(p.Taken()), src,
                 f.inode.sectors, f.inode.size, p.disk[..], p.Taken())
      && OnlyRecord(old(p.disk[..]), p.disk[..], p.tableLba, p.dataLba, f.inode.no % 0x100, f.inode.Pure())
  {
    hide Mapped, FileOk, Content, Footprint, FreeCount, Partition.Taken, TailTaken, OnlyRecord, RecordStored, Pack,
      Written, Partition.BlocksStored;
    hide NeededBlocks;
    ghost var s0, size0, d0, taken0 := f.inode.sectors, f.inode.size, p.disk[..], p.Taken();
    ghost var lo, hi := p.dataLba, p.dataLba + p.dataCnt;
    if U32(f.inode.size + |src|) > MAX_FILE {
      return Null;
    }
    var ok := WriteBlocks(p, f, src);
    if !ok {
      return Halted;
    }
    ghost var d := p.disk[..];
    ok := p.InodeSync(f.inode);
    SyncOutside(lo, hi, s0, size0, d0, taken0, src, f.inode.sectors, f.inode.size, d, p.Taken(),
                p.tableLba, f.inode.no % 0x100, f.inode.Pure(), p.disk[..]);
    WrittenWritable(p, f.inode, s0, size0, d0, taken0, src);
    r := Done(|src|);
  }

  /** In the inode table, record `no` is `rec` and all the others are as before. */
  ghost predicate OnlyRecord(d0: seq<Sector>, d: seq<Sector>, t: nat, lo: nat, no: nat, rec: Record) {
    && |d| == |d0| && HasTable(d0, t) && t + TABLE_SECTS <= lo <= |d| && no < MAX_INODES
    && RecordAt(d, t, no) == rec
    && forall m :: 0 <= m < MAX_INODES && m != no ==> RecordAt(d, t, m) == RecordAt(d0, t, m)
  }

  /** Records read alike from tables that are alike. */
  lemma RecordFrame(d0: seq<Sector>, d: seq<Sector>, t: nat, m: nat)
    requires HasTable(d0, t) && |d| == |d0| && m < MAX_INODES
    requires forall b :: t <= b < t + TABLE_SECTS ==> d[b] == d0[b]
    ensures RecordAt(d, t, m) == RecordAt(d0, t, m)
  {
    forall k | 0 <= k < INODE_SIZE ensures RecordBytes(d, t, m)[k] == RecordBytes(d0, t, m)[k] {
      InOneRecord(m, m, k);
      var j := INODE_SIZE * m + k;
      assert d[t + j / SECTOR_SIZE] == d0[t + j / SECTOR_SIZE];
      assert RecordBytes(d, t, m)[k] == ByteAt(d, t, j) && RecordBytes(d0, t, m)[k] == ByteAt(d0, t, j);
    }
    assert RecordBytes(d, t, m) == RecordBytes(d0, t, m);
  }

  /** Storing a record changes no data sector, and only that record of the table. */
  lemma StoredOnly(d0: seq<Sector>, d: seq<Sector>, d': seq<Sector>, t: nat, lo: nat, no: nat, rec: Record)
    requires HasTable(d0, t) && |d| == |d0| && t + TABLE_SECTS <= lo <= |d| && no < MAX_INODES && |rec.sectors| == 13
    requires forall b :: 0 <= b < lo ==> d[b] == d0[b]
    requires RecordStored(d, d', t, no, Pack(rec))
    ensures OnlyRecord(d0, d', t, lo, no, rec) && |d'| == |d|
    ensures forall b :: lo <= b < |d| ==> d'[b] == d[b]
  {
    hide RecordBytes, Pack, Unpack, ByteAt;
    UnpackPack(rec);
    StoredReads(d, d', t, no, Pack(rec), no);
    forall m | 0 <= m < MAX_INODES && m != no ensures RecordAt(d', t, m) == RecordAt(d0, t, m) {
      StoredReads(d, d', t, no, Pack(rec), m);
      RecordFrame(d0, d, t, m);
    }
  }

  lemma SyncOutside(lo: nat, hi: nat, s0: seq<word>, size0: nat, d0: seq<Sector>, taken0: set<nat>, src: seq<byte>,
                    s: seq<word>, size: nat, d: seq<Sector>, taken: set<nat>, t: nat, no: nat, rec: Record,
                    d': seq<Sector>)
    requires Written(lo, hi, s0, size0, d0, taken0, src, s, size, d, taken) && hi == |d|
    requires HasTable(d, t) && t + TABLE_SECTS <= lo <= hi && no < MAX_INODES && |rec.sectors| == 13
    requires forall b :: 0 <= b < lo ==> d[b] == d0[b]
    requires RecordStored(d, d', t, no, Pack(rec))
    ensures Written(lo, hi, s0, size0, d0, taken0, src, s, size, d', taken) && OnlyRecord(d0, d', t, lo, no, rec)
  {
    hide RecordStored, Pack, OnlyRecord, Content, Chain, Footprint, Mapped, RecordAt;
    StoredOnly(d0, d, d', t, lo, no, rec);
    FootprintRange(lo, hi, s, d, Count(s, size));
    FileFrame(lo, hi, s, size, d, d');
  }

  lemma WrittenWritable(p: Partition, nd: Inode, s0: seq<word>, size0: nat, d0: seq<Sector>, taken0: set<nat>,
                        src: seq<byte>)
    requires p.Shape() && |s0| == 13 && TailTaken(p.dataLba, p.dataCnt, p.blockMap.bytesLen, taken0)
    requires Written(p.dataLba, p.dataLba + p.dataCnt, s0, size0, d0, taken0, src, nd.sectors, nd.size, p.disk[..],
                     p.Taken())
    ensures Writable(p, nd)
  {
    hide FileOk, Footprint, Partition.Taken, Content;
  }
}
