/** file_read of fs/file.c, sys_lseek of fs/fs.c, and what they give back of what file_write stored. */
module FileReading {
  import opened Bitmaps
  import opened Outcomes
  import opened Disks
  import opened Partitions
  import opened FileBlocks
  import opened FileGrowth
  import opened Files

  /** fd_pos before the start of the file, as a write of nothing to an empty file leaves it. */
  const BEFORE_START: nat := 0xffff_ffff

  /** file_read may look at blocks below this index only. */
  const READ_LIMIT: nat := 139

  /** How far a read goes. */
  function ReadLen(pos: nat, size: nat, count: nat): (n: nat)
    requires pos <= size
    ensures pos + n <= size && n <= count && (n == count || pos + n == size)
  {
    if pos + count > size then size - pos else count
  }

  /** The part of file_read that fills all_blocks. */
  method CollectBlocks(p: Partition, nd: Inode, start: nat, end: nat, ghost n: nat) returns (ok: bool, all: seq<word>)
    requires p.Shape() && nd.Valid() && start <= end < MAX_BLOCKS
    requires Mapped(p.dataLba, p.dataLba + p.dataCnt, nd.sectors, p.disk[..], n) && (n == 0 ==> end == 0)
    requires n > 0 ==> end < n
    ensures ok && |all| == MAX_BLOCKS && forall i :: start <= i <= end ==> all[i] == Chain(nd.sectors, p.disk[..])[i]
  {
    hide ChainOk, Decode;
    ghost var c := Chain(nd.sectors, p.disk[..]);
    assert forall i :: 0 <= i < DIRECT ==> c[i] == nd.sectors[i];
    all := seq(MAX_BLOCKS, _ => 0);
    if start == end {
      if end < DIRECT {
        all := all[end := nd.sectors[end]];
      } else {
        all := all[..DIRECT] + Decode(p.disk[nd.sectors[12]]);
      }
    } else if end < DIRECT {
      var idx := start;
      while idx <= end
        invariant start <= idx <= end + 1 && |all| == MAX_BLOCKS
        invariant forall i :: start <= i < idx ==> all[i] == nd.sectors[i]
      {
        all := all[idx := nd.sectors[idx]];
        idx := idx + 1;
      }
    } else if start < DIRECT {
      var idx := start;
      while idx < DIRECT
        invariant start <= idx <= DIRECT && |all| == MAX_BLOCKS
        invariant forall i :: start <= i < idx ==> all[i] == nd.sectors[i]
      {
        all := all[idx := nd.sectors[idx]];
        idx := idx + 1;
      }
      if nd.sectors[12] == 0 {
        return false, all;
      }
      all := all[..DIRECT] + Decode(p.disk[nd.sectors[12]]);
    } else {
      if nd.sectors[12] == 0 {
        return false, all;
      }
      all := all[..DIRECT] + Decode(p.disk[nd.sectors[12]]);
    }
    ok := true;
  }

  /** The loop at the end of file_read. */
  method ReadData(p: Partition, f: File, all: seq<word>, size: nat) returns (dst: seq<byte>)
    requires p.Shape() && f.inode.Valid() && f.pos + size <= f.inode.size && |all| == MAX_BLOCKS
    requires FileOk(p.dataLba, p.dataLba + p.dataCnt, f.inode.sectors, f.inode.size, p.disk[..])
    requires forall i :: f.pos / SECTOR_SIZE <= i <= (f.pos + size) / SECTOR_SIZE ==>
      all[i] == Chain(f.inode.sectors, p.disk[..])[i]
    modifies f`pos
    ensures dst == Content(f.inode.sectors, f.inode.size, p.disk[..])[old(f.pos)..old(f.pos) + size]
    ensures f.pos == old(f.pos) + size
  {
    hide Mapped, Chain, Content, FileOk, U32;
    ghost var pos0 := f.pos;
    ghost var bytes := Content(f.inode.sectors, f.inode.size, p.disk[..]);
    var done, left := 0, size;
    dst := [];
    while done < size
      invariant 0 <= done <= size && left == size - done && f.pos == pos0 + done
      invariant dst == bytes[pos0..pos0 + done]
    {
      BlocksEnough(f.pos, f.inode.size, pos0);
      HasBlocks(p.dataLba, p.dataLba + p.dataCnt, f.inode.sectors, f.inode.size, p.disk[..]);
      var secIdx := f.pos / SECTOR_SIZE;
      var secLba := all[secIdx];
      var secOff := f.pos % SECTOR_SIZE;
      var secLeft := SECTOR_SIZE - secOff;
      var chunkSize := if left < secLeft then left else secLeft;
      var ioBuf := p.disk[secLba];
      dst := dst + ioBuf[secOff..secOff + chunkSize];
      ChunkIs(f.inode.sectors, f.inode.size, p.disk[..], f.pos, chunkSize);
      assert bytes[pos0..pos0 + done] + bytes[f.pos..f.pos + chunkSize] == bytes[pos0..pos0 + done + chunkSize];
      f.pos := f.pos + chunkSize;
      done := done + chunkSize;
      left := left - chunkSize;
    }
  }

  lemma ChunkIs(s: seq<word>, size: nat, d: seq<Sector>, pos: nat, n: nat)
    requires |s| == 13 && pos + n <= size && pos / SECTOR_SIZE < MAX_BLOCKS && pos % SECTOR_SIZE + n <= SECTOR_SIZE
    requires Chain(s, d)[pos / SECTOR_SIZE] < |d|
    ensures Content(s, size, d)[pos..pos + n] ==
      d[Chain(s, d)[pos / SECTOR_SIZE]][pos % SECTOR_SIZE..pos % SECTOR_SIZE + n]
  {
    hide Chain, ByteOf;
    ChunkRead(Chain(s, d), d, pos, n);
  }

  lemma ChunkRead(c: seq<word>, d: seq<Sector>, pos: nat, n: nat)
    requires pos / SECTOR_SIZE < |c| && c[pos / SECTOR_SIZE] < |d| && pos % SECTOR_SIZE + n <= SECTOR_SIZE
    ensures forall k :: pos <= k < pos + n ==> ByteOf(c, d, k) == d[c[pos / SECTOR_SIZE]][pos % SECTOR_SIZE + (k - pos)]
  {
    forall k | pos <= k < pos + n ensures ByteOf(c, d, k) == d[c[pos / SECTOR_SIZE]][pos % SECTOR_SIZE + (k - pos)] {
      assert k / SECTOR_SIZE == pos / SECTOR_SIZE && k % SECTOR_SIZE == pos % SECTOR_SIZE + (k - pos);
    }
  }

  /** A file with bytes in it has all the blocks it should. */
  lemma HasBlocks(lo: nat, hi: nat, s: seq<word>, size: nat, d: seq<Sector>)
    requires FileOk(lo, hi, s, size, d) && size > 0
    ensures Mapped(lo, hi, s, d, BlocksFor(size)) && BlocksFor(size) <= MAX_BLOCKS
    ensures forall i :: 0 <= i < BlocksFor(size) ==> Chain(s, d)[i] < |d|
  {
  }

  /** file_read. From a position inside the file it gives exactly the bytes there, as many as there are;
      it halts when they end in block 139 or later, and at a position before the start. */
  method FileRead(p: Partition, f: File, count: nat) returns (r: Outcome<seq<byte>>)
    requires p.Shape() && f.inode.Valid() && count < 0x1_0000_0000
    requires f.pos <= f.inode.size ==> f.pos + count < 0x1_0000_0000
    requires FileOk(p.dataLba, p.dataLba + p.dataCnt, f.inode.sectors, f.inode.size, p.disk[..])
    requires f.pos <= f.inode.size || f.pos == BEFORE_START
    modifies f`pos
    ensures r == Null <==> old(f.pos) == f.inode.size && count > 0
    ensures r == Halted <==>
      && r != Null
      && (|| old(f.pos) > f.inode.size
          || (old(f.pos) + ReadLen(old(f.pos), f.inode.size, count)) / SECTOR_SIZE >= READ_LIMIT)
    ensures !r.Done? ==> f.pos == old(f.pos)
    ensures r.Done? ==>
      var n := ReadLen(old(f.pos), f.inode.size, count);
      && r.value == Content(f.inode.sectors, f.inode.size, p.disk[..])[old(f.pos)..old(f.pos) + n]
      && f.pos == old(f.pos) + n
  {
    hide Mapped, Chain, Content, U32, FileOk;
    ReadArithmetic(p.dataLba, p.dataLba + p.dataCnt, f.inode.sectors, f.inode.size, p.disk[..], f.pos, count);
    var size := count;
    if U32(f.pos + count) > f.inode.size {
      size := U32(f.inode.size - f.pos);
      if size == 0 {
        return Null;
      }
    }
    var start, end := f.pos / SECTOR_SIZE, U32(f.pos + size) / SECTOR_SIZE;
    if !(start < READ_LIMIT && end < READ_LIMIT) {
      return Halted;
    }
    EndBlock(p.dataLba, p.dataLba + p.dataCnt, f.inode.sectors, f.inode.size, p.disk[..], f.pos, size);
    var ok, all := CollectBlocks(p, f.inode, start, end, Count(f.inode.sectors, f.inode.size));
    if !ok {
      assert false;
      return Halted;
    }
    var dst := ReadData(p, f, all, size);
    r := Done(dst);
  }

  /** Unsigned arithmetic on a position in the file is exact; before the start it lands far outside. */
  lemma ReadArithmetic(lo: nat, hi: nat, s: seq<word>, size: nat, d: seq<Sector>, pos: word, count: nat)
    requires FileOk(lo, hi, s, size, d) && (pos <= size || pos == BEFORE_START)
    requires pos <= size ==> pos + count < 0x1_0000_0000
    ensures pos <= size ==> U32(pos + count) == pos + count && U32(size - pos) == size - pos
    ensures pos <= size ==> U32(pos + ReadLen(pos, size, count)) == pos + ReadLen(pos, size, count)
    ensures pos > size ==> pos / SECTOR_SIZE >= READ_LIMIT && U32(size - pos) != 0
  {
  }

  lemma EndBlock(lo: nat, hi: nat, s: seq<word>, size: nat, d: seq<Sector>, pos: nat, n: nat)
    requires FileOk(lo, hi, s, size, d) && pos + n <= size
    ensures pos / SECTOR_SIZE <= (pos + n) / SECTOR_SIZE < MAX_BLOCKS && Mapped(lo, hi, s, d, Count(s, size))
    ensures Count(s, size) > 0 ==> (pos + n) / SECTOR_SIZE < Count(s, size)
    ensures Count(s, size) == 0 ==> (pos + n) / SECTOR_SIZE == 0
  {
  }

  datatype Whence = SeekSet | SeekCur | SeekEnd

  /** sys_lseek on an open file: only positions of existing bytes are accepted. */
  method Lseek(f: File, offset: int, whence: Whence) returns (r: Outcome<word>)
    requires -0x8000_0000 <= offset < 0x8000_0000 && f.inode.size <= MAX_FILE
    requires f.pos <= f.inode.size || f.pos == BEFORE_START
    modifies f`pos
    ensures r.Done? <==> 0 <= Target(old(f.pos), f.inode.size, offset, whence) < f.inode.size
    ensures r.Done? ==> r.value == f.pos == Target(old(f.pos), f.inode.size, offset, whence)
    ensures !r.Done? ==> r == Null && f.pos == old(f.pos)
  {
    SeekExact(f.pos, f.inode.size, offset);
    hide I32;
    var newPos;
    match whence {
      case SeekSet => newPos := offset;
      case SeekCur => newPos := I32(I32(f.pos) + offset);
      case SeekEnd => newPos := I32(f.inode.size + offset);
    }
    if newPos < 0 || newPos > f.inode.size as int - 1 {
      return Null;
    }
    f.pos := newPos;
    r := Done(f.pos);
  }

  /** A value as a signed 32-bit integer. */
  function I32(n: int): int {
    (n + 0x8000_0000) % 0x1_0000_0000 - 0x8000_0000
  }

  /** Signed arithmetic on a position gives what is meant, or something outside the file. */
  lemma SeekExact(pos: word, size: word, offset: int)
    requires -0x8000_0000 <= offset < 0x8000_0000 && size <= MAX_FILE && (pos <= size || pos == BEFORE_START)
    ensures var t := (if pos == BEFORE_START then -1 else pos) + offset;
      var r := I32(I32(pos) + offset);
      r == t || ((r < 0 || r >= size) && (t < 0 || t >= size))
    ensures I32(size + offset) == size + offset || (I32(size + offset) < 0 && size + offset >= size)
  {
  }

  /** Where a seek means to go; the position before the start counts as -1. */
  function Target(pos: nat, size: nat, offset: int, whence: Whence): int {
    match whence
    case SeekSet => offset
    case SeekCur => (if pos == BEFORE_START then -1 else pos) + offset
    case SeekEnd => size + offset
  }

  /** Append, seek back, read: what was written comes back, wherever the block boundaries are. */
  method AppendThenRead(p: Partition, f: File, src: seq<byte>) returns (r: Outcome<seq<byte>>)
    requires p.Shape() && f.inode.Valid() && Writable(p, f.inode) && src != []
    requires f.inode.size + |src| < READ_LIMIT * SECTOR_SIZE
    requires FreeCount(p.blockMap.Map()) >= NeededBlocks(f.inode.sectors, f.inode.size, |src|)
    modifies p.disk, p.blockMap.bits, p.blockArea, f.inode`size, f.inode`sectors, f`pos
    ensures r == Done(src)
  {
    hide NeededBlocks, OnlyRecord, Footprint, FreeCount, Mapped, Chain, Partition.Taken, TailTaken, U32,
      Partition.BlocksStored;
    ghost var before := Content(f.inode.sectors, f.inode.size, p.disk[..]);
    var start := f.inode.size;
    var w := FileWrite(p, f, src);
    PosInside(f.inode.size);
    var s := Lseek(f, start, SeekSet);
    r := FileRead(p, f, |src|);
    assert (before + src)[|before|..|before| + |src|] == src;
  }

  lemma PosInside(size: nat)
    requires 0 < size <= MAX_FILE
    ensures U32(size - 1) <= size
  {
  }

  /** Seeking back from the end: the last `n` bytes of the file. */
  method ReadLast(p: Partition, f: File, n: nat) returns (r: Outcome<seq<byte>>)
    requires p.Shape() && f.inode.Valid() && 0 < n <= f.inode.size
    requires FileOk(p.dataLba, p.dataLba + p.dataCnt, f.inode.sectors, f.inode.size, p.disk[..])
    requires f.pos <= f.inode.size || f.pos == BEFORE_START
    modifies f`pos
    ensures r == Halted <==> f.inode.size / SECTOR_SIZE >= READ_LIMIT
    ensures r != Halted ==>
      var c := Content(f.inode.sectors, f.inode.size, p.disk[..]); r == Done(c[|c| - n..]) && f.pos as nat == |c|
  {
    hide Content, FileOk, Mapped, Chain;
    SizeFits(p.dataLba, p.dataLba + p.dataCnt, f.inode.sectors, f.inode.size, p.disk[..]);
    var back: int := 0 - n;
    var at := Lseek(f, back, SeekEnd);
    r := FileRead(p, f, n);
    ghost var c := Content(f.inode.sectors, f.inode.size, p.disk[..]);
    assert c[|c| - n..|c|] == c[|c| - n..];
  }

  lemma SizeFits(lo: nat, hi: nat, s: seq<word>, size: nat, d: seq<Sector>)
    requires FileOk(lo, hi, s, size, d)
    ensures size <= MAX_FILE
  {
  }

  /** Seeking from where the file stands: `k` bytes on, or back when k is negative, and then what is there. */
  method SkipAndRead(p: Partition, f: File, k: int, n: nat) returns (r: Outcome<seq<byte>>)
    requires p.Shape() && f.inode.Valid() && -0x8000_0000 <= k < 0x8000_0000 && n < 0x8000_0000
    requires FileOk(p.dataLba, p.dataLba + p.dataCnt, f.inode.sectors, f.inode.size, p.disk[..])
    requires f.pos <= f.inode.size && 0 <= f.pos + k < f.inode.size
    modifies f`pos
    ensures var at: nat := old(f.pos) + k;
      var m := ReadLen(at, f.inode.size, n);
      r == if (at + m) / SECTOR_SIZE >= READ_LIMIT then Halted
           else Done(Content(f.inode.sectors, f.inode.size, p.disk[..])[at..at + m])
  {
    hide Content, FileOk, Mapped, Chain;
    SizeFits(p.dataLba, p.dataLba + p.dataCnt, f.inode.sectors, f.inode.size, p.disk[..]);
    var at := Lseek(f, k, SeekCur);
    r := FileRead(p, f, n);
  }

  /** Going back by as much as was read, and reading again, gives the same bytes. */
  method ReadTwice(p: Partition, f: File, n: nat) returns (first: Outcome<seq<byte>>, again: Outcome<seq<byte>>)
    requires p.Shape() && f.inode.Valid() && 0 < n < 0x8000_0000
    requires FileOk(p.dataLba, p.dataLba + p.dataCnt, f.inode.sectors, f.inode.size, p.disk[..])
    requires f.pos < f.inode.size
    modifies f`pos
    ensures again == first
  {
    hide Content, FileOk, Mapped, Chain;
    SizeFits(p.dataLba, p.dataLba + p.dataCnt, f.inode.sectors, f.inode.size, p.disk[..]);
    first := FileRead(p, f, n);
    again := first;
    if first.Done? {
      var back: int := 0 - |first.value|;
      var at := Lseek(f, back, SeekCur);
      again := FileRead(p, f, n);
    }
  }

  // ---------------------------------------------------------------- the limits at work

  /** A file of 71680 bytes is within the limit file_write reports, but the write halts. */
  method WriteTheMost(p: Partition, f: File) returns (r: Outcome<word>)
    requires p.Shape() && f.inode.Valid() && Writable(p, f.inode) && f.inode.size == 0
    modifies p.disk, p.blockMap.bits, p.blockArea, f.inode`size, f.inode`sectors, f`pos
    ensures r == Halted
  {
    r := FileWrite(p, f, Zeros(71680));
  }

  /** A file of 139 full blocks can be written, but reading it from the start to the end halts. */
  method ReadTheMost(p: Partition, f: File) returns (w: Outcome<word>, r: Outcome<seq<byte>>)
    requires p.Shape() && f.inode.Valid() && Writable(p, f.inode) && f.inode.size == 0
    requires FreeCount(p.blockMap.Map()) >= NeededBlocks(f.inode.sectors, 0, 71168)
    modifies p.disk, p.blockMap.bits, p.blockArea, f.inode`size, f.inode`sectors, f`pos
    ensures w == Done(71168) && r == Halted
  {
    hide NeededBlocks, OnlyRecord, Footprint, FreeCount, Mapped, Chain, Partition.Taken, TailTaken, Written,
      Partition.BlocksStored;
    w := FileWrite(p, f, Zeros(71168));
    PosInside(f.inode.size);
    var s := Lseek(f, 0, SeekSet);
    r := FileRead(p, f, 71168);
  }
}
