/** A mounted partition: the disk, its two bitmaps, and the inodes held open (fs/inode.c, fs/file.c). */
module Partitions {
  import opened Bitmaps
  import opened Outcomes
  import opened Disks
  import opened InodeTable

  /** struct inode in memory. */
  class Inode {
    var no: word
    var size: word
    var openCnts: word
    var writeDeny: bool
    var sectors: seq<word>  // i_sectors: twelve direct blocks and the indirect table

    ghost predicate Valid()
      reads this
    {
      |sectors| == 13
    }

    /** The record inode_sync writes: counts, flags and links are cleared. */
    function Pure(): Record
      reads this
    {
      Record(no, size, 0, 0, sectors, 0, 0)
    }

    /** inode_init */
    constructor Init(no: word)
      ensures Valid() && this.no == no && size == 0 && openCnts == 0 && !writeDeny && sectors == seq(13, _ => 0)
    {
      this.no, size, openCnts, writeDeny, sectors := no, 0, 0, false, seq(13, _ => 0);
    }

    constructor FromRecord(r: Record)
      requires |r.sectors| == 13
      ensures Valid() && no == r.no && size == r.size && sectors == r.sectors && writeDeny == (r.writeDeny != 0)
      ensures openCnts == 1
    {
      no, size, sectors, writeDeny, openCnts := r.no, r.size, r.sectors, r.writeDeny != 0, 1;
    }
  }

  // ---------------------------------------------------------------- what a sync leaves on the disk

  /** What was synced reads back exactly when the inode number survives its narrowing to eight bits,
      or the old record was the same already. */
  lemma SyncReadsBackIff(d0: seq<Sector>, d: seq<Sector>, t: nat, r: Record)
    requires HasTable(d0, t) && r.no < MAX_INODES && |r.sectors| == 13
    requires RecordStored(d0, d, t, r.no % 0x100, Pack(r))
    ensures RecordAt(d, t, r.no) == r <==> r.no < 0x100 || RecordAt(d0, t, r.no) == r
    ensures forall m :: 0 <= m < MAX_INODES && m != r.no % 0x100 ==> RecordAt(d, t, m) == RecordAt(d0, t, m)
  {
    hide RecordBytes, Pack, Unpack, ByteAt;
    UnpackPack(r);
    StoredReads(d0, d, t, r.no % 0x100, Pack(r), r.no);
    forall m | 0 <= m < MAX_INODES && m != r.no % 0x100 ensures RecordAt(d, t, m) == RecordAt(d0, t, m) {
      StoredReads(d0, d, t, r.no % 0x100, Pack(r), m);
    }
  }

  /** Syncing inode 256 puts its record where the root directory's was. */
  lemma SyncOverRoot(d0: seq<Sector>, d: seq<Sector>, t: nat, r: Record)
    requires HasTable(d0, t) && r.no == 256 && |r.sectors| == 13
    requires RecordStored(d0, d, t, r.no % 0x100, Pack(r))
    ensures RecordAt(d, t, 0) == r
  {
    hide RecordBytes, Pack, Unpack, ByteAt;
    UnpackPack(r);
    StoredReads(d0, d, t, 0, Pack(r), 0);
  }

  /** The sectors whose bits are set. */
  ghost predicate BitAt(dataLba: nat, s: seq<bool>, b: nat) {
    dataLba <= b < dataLba + |s| && s[b - dataLba]
  }

  ghost function TakenOf(dataLba: nat, s: seq<bool>): set<nat> {
    set b: nat | b < dataLba + |s| && BitAt(dataLba, s, b)
  }

  lemma TakenUpdate(dataLba: nat, s: seq<bool>, i: nat, v: bool)
    requires i < |s|
    ensures TakenOf(dataLba, s[i := v]) ==
      if v then TakenOf(dataLba, s) + {dataLba + i} else TakenOf(dataLba, s) - {dataLba + i}
  {
    var s' := s[i := v];
    forall b: nat ensures BitAt(dataLba, s', b) <==> if b == dataLba + i then v else BitAt(dataLba, s, b) {
    }
  }

  /** A record as inode_sync leaves it under its own number. */
  ghost predicate Synced(q: Record, no: nat) {
    q.no == no && q.openCnts == q.writeDeny == q.prev == q.next == 0
  }

  function Without<T(==)>(q: seq<T>, x: T): (r: seq<T>)
    ensures forall y :: y in r ==> y in q
  {
    if q == [] then [] else if q[0] == x then q[1..] else [q[0]] + Without(q[1..], x)
  }

  // ---------------------------------------------------------------- the bit maps on the disk

  datatype MapKind = INODE_BITMAP | BLOCK_BITMAP

  const BITS_PER_SECTOR: nat := 4096

  /** Bit k of a run of sectors. */
  function AreaBit(area: seq<Sector>, k: nat): bool
    requires k < BITS_PER_SECTOR * |area|
  {
    BitOf(area[k / BITS_PER_SECTOR][k % BITS_PER_SECTOR / 8] as bv8, k % 8)
  }

  /** The sectors hold the map. */
  ghost predicate AreaHolds(area: seq<Sector>, map_: seq<bool>) {
    |map_| == BITS_PER_SECTOR * |area| && forall k :: 0 <= k < |map_| ==> map_[k] == AreaBit(area, k)
  }

  /** The 512 bytes of a bit map that bitmap_sync writes. */
  function SectorOf(bytes: seq<bv8>, off: nat): Sector
    requires SECTOR_SIZE * off + SECTOR_SIZE <= |bytes|
  {
    seq<byte>(SECTOR_SIZE, j requires 0 <= j < SECTOR_SIZE => bytes[SECTOR_SIZE * off + j] as int)
  }

  lemma BitInSector(k: nat)
    ensures SECTOR_SIZE * (k / BITS_PER_SECTOR) + k % BITS_PER_SECTOR / 8 == k / 8
    ensures k % BITS_PER_SECTOR / 8 < SECTOR_SIZE
  {
    assert k == BITS_PER_SECTOR * (k / BITS_PER_SECTOR) + k % BITS_PER_SECTOR;
  }

  lemma ThereAndBack(b: bv8)
    ensures (b as int) as bv8 == b
  {
  }

  lemma SectorBits(area: seq<Sector>, bytes: seq<bv8>, off: nat, k: nat)
    requires off < |area| && |bytes| >= SECTOR_SIZE * |area| && k < BITS_PER_SECTOR * |area|
    ensures AreaBit(area[off := SectorOf(bytes, off)], k) ==
      if k / BITS_PER_SECTOR == off then BitOf(bytes[k / 8], k % 8) else AreaBit(area, k)
  {
    BitInSector(k);
    if k / BITS_PER_SECTOR == off {
      ThereAndBack(bytes[k / 8]);
    }
  }

  /** One bit of the map has changed and its sector was written: the sectors hold the map again. */
  lemma AreaSynced(area0: seq<Sector>, area: seq<Sector>, bytes: seq<bv8>, off: nat, was: seq<bool>, map_: seq<bool>,
                   idx: nat)
    requires AreaHolds(area0, was) && idx < |was| && |map_| == |was| && map_ == was[idx := map_[idx]]
    requires off == idx / BITS_PER_SECTOR && |bytes| >= SECTOR_SIZE * |area0|
    requires area == area0[off := SectorOf(bytes, off)]
    requires forall k :: 0 <= k < |map_| ==> map_[k] == BitOf(bytes[k / 8], k % 8)
    ensures AreaHolds(area, map_)
  {
    hide AreaBit, SectorOf, BitOf;
    forall k | 0 <= k < |map_| ensures map_[k] == AreaBit(area, k) {
      SectorBits(area0, bytes, off, k);
    }
  }

  /** The sector that bit `idx` lies in was written from the map in memory, and no other. */
  ghost predicate Wrote(area0: seq<Sector>, area: seq<Sector>, bytes: seq<bv8>, idx: nat) {
    var off := idx / BITS_PER_SECTOR;
    && off < |area0| && SECTOR_SIZE * off + SECTOR_SIZE <= |bytes|
    && area == area0[off := SectorOf(bytes, off)]
  }

  /** The maps differ in one bit at most. */
  ghost predicate OneBit(was: seq<bool>, now: seq<bool>, i: nat) {
    |now| == |was| && i < |was| && now == was[i := now[i]]
  }

  class Partition {
    // The disk, in three parts: partition_format gives each bit map sectors of its own. What is said about
    // the sectors of `disk` is said about none of the other two.
    const disk: array<Sector>        // by sector number
    const blockArea: array<Sector>   // the sectors from sb->block_bitmap_lba on
    const inodeArea: array<Sector>   // the sectors from sb->inode_bitmap_lba on
    const blockMap: Bitmap
    const inodeMap: Bitmap
    const tableLba: nat   // sb->inode_table_lba
    const dataLba: nat    // sb->data_start_lba
    const dataCnt: nat    // how many sectors follow it
    var open: seq<Inode>  // open_inodes

    constructor (disk: array<Sector>, blockArea: array<Sector>, inodeArea: array<Sector>,
                 blockMap: Bitmap, inodeMap: Bitmap, tableLba: nat, dataLba: nat, dataCnt: nat)
      ensures this.disk == disk && this.blockArea == blockArea && this.inodeArea == inodeArea
      ensures this.blockMap == blockMap && this.inodeMap == inodeMap
      ensures this.tableLba == tableLba && this.dataLba == dataLba && this.dataCnt == dataCnt && open == []
    {
      this.disk, this.blockArea, this.inodeArea := disk, blockArea, inodeArea;
      this.blockMap, this.inodeMap := blockMap, inodeMap;
      this.tableLba, this.dataLba, this.dataCnt, open := tableLba, dataLba, dataCnt, [];
    }

    ghost predicate Shape() {
      && blockMap.Valid() && inodeMap.Valid() && blockMap.bits != inodeMap.bits
      && disk as object != blockMap.bits && disk as object != inodeMap.bits
      && blockArea as object != blockMap.bits && blockArea as object != inodeMap.bits
      && inodeArea as object != blockMap.bits && inodeArea as object != inodeMap.bits
      && disk != blockArea && disk != inodeArea && blockArea != inodeArea
      && blockMap.bytesLen == SECTOR_SIZE * blockArea.Length && inodeMap.bytesLen == SECTOR_SIZE * inodeArea.Length
      && 8 * inodeMap.bytesLen == MAX_INODES
      && 0 < tableLba && tableLba + TABLE_SECTS <= dataLba
      && dataLba + dataCnt == disk.Length < 0x1_0000_0000
      && dataCnt <= 8 * blockMap.bytesLen
    }

    /** The open inodes have numbers of their own, and each is what a read from the disk would give. */
    ghost predicate Cached()
      requires Shape()
      reads this, disk, open
    {
      AreCached(open)
    }

    ghost predicate AreCached(q: seq<Inode>)
      requires Shape()
      reads disk, q
    {
      && (forall i, j :: 0 <= i < j < |q| ==> q[i] != q[j])
      && (forall a, b :: a in q && b in q && a.no == b.no ==> a == b)
      && forall nd :: nd in q ==> nd.no < MAX_INODES && nd.Valid() && RecordAt(disk[..], tableLba, nd.no) == nd.Pure()
    }

    /** The block map on the disk is the one in memory. */
    ghost predicate BlocksStored()
      requires Shape()
      reads blockArea, blockMap.bits
    {
      AreaHolds(blockArea[..], blockMap.Map())
    }

    /** The inode map on the disk is the one in memory. */
    ghost predicate InodesStored()
      requires Shape()
      reads inodeArea, inodeMap.bits
    {
      AreaHolds(inodeArea[..], inodeMap.Map())
    }

    /** bitmap_sync: one sector is written. Where that was the only thing the disk had not got yet, it now has it
        all. */
    method BitmapSync(bitIdx: nat, btmp: MapKind, ghost was: seq<bool>)
      requires Shape() && btmp == BLOCK_BITMAP ==> bitIdx < 8 * blockMap.bytesLen
      requires Shape() && btmp == INODE_BITMAP ==> bitIdx < MAX_INODES
      requires Shape()
      modifies if btmp == BLOCK_BITMAP then blockArea else inodeArea
      ensures btmp == BLOCK_BITMAP ==> Wrote(old(blockArea[..]), blockArea[..], blockMap.bits[..], bitIdx)
      ensures btmp == INODE_BITMAP ==> Wrote(old(inodeArea[..]), inodeArea[..], inodeMap.bits[..], bitIdx)
      ensures btmp == BLOCK_BITMAP && OneBit(was, blockMap.Map(), bitIdx) && AreaHolds(old(blockArea[..]), was) ==>
        BlocksStored()
      ensures btmp == INODE_BITMAP && OneBit(was, inodeMap.Map(), bitIdx) && AreaHolds(old(inodeArea[..]), was) ==>
        InodesStored()
    {
      match btmp {
        case BLOCK_BITMAP => WriteMap(blockMap, blockArea, bitIdx, was);
        case INODE_BITMAP => WriteMap(inodeMap, inodeArea, bitIdx, was);
      }
    }

    static method WriteMap(m: Bitmap, area: array<Sector>, bitIdx: nat, ghost was: seq<bool>)
      requires m.Valid() && m.bytesLen == SECTOR_SIZE * area.Length && bitIdx < 8 * m.bytesLen
      requires area as object != m.bits
      modifies area
      ensures Wrote(old(area[..]), area[..], m.bits[..], bitIdx)
      ensures OneBit(was, m.Map(), bitIdx) && AreaHolds(old(area[..]), was) ==> AreaHolds(area[..], m.Map())
    {
      hide AreaHolds;
      var offSec := bitIdx / BITS_PER_SECTOR;
      area[offSec] := SectorOf(m.bits[..], offSec);
      BitsAt(m.bits[..]);
      assert forall k :: 0 <= k < 8 * m.bytesLen ==> m.Map()[k] == m.Bits()[k];
      if OneBit(was, m.Map(), bitIdx) && AreaHolds(old(area[..]), was) {
        AreaSynced(old(area[..]), area[..], m.bits[..], offSec, was, m.Map(), bitIdx);
      }
    }

    /** inode_sync. Its assertion holds; where the record goes depends on the low eight bits of its number. */
    method InodeSync(nd: Inode) returns (ok: bool)
      requires Shape() && nd.Valid()
      modifies disk
      ensures ok && RecordStored(old(disk[..]), disk[..], tableLba, nd.no % 0x100, Pack(nd.Pure()))
    {
      var no := nd.no % 0x100;
      ok := WriteRecord(no, Pack(nd.Pure()));
    }

    /** inode_delete */
    method InodeDelete(no: nat) returns (ok: bool)
      requires Shape() && no < MAX_INODES
      modifies disk
      ensures ok && RecordStored(old(disk[..]), disk[..], tableLba, no, Zeros(INODE_SIZE))
    {
      ok := WriteRecord(no, Zeros(INODE_SIZE));
    }

    /** Reading one or two sectors, putting the record in, and writing them back. */
    method WriteRecord(no: nat, bs: seq<byte>) returns (ok: bool)
      requires Shape() && no < MAX_INODES && |bs| == INODE_SIZE
      modifies disk
      ensures ok && RecordStored(old(disk[..]), disk[..], tableLba, no, bs)
    {
      var pos := Locate(tableLba, no);
      if pos.secLba > dataLba + dataCnt {
        return false;
      }
      if pos.twoSec {
        var a: seq<byte>, b: seq<byte> := disk[pos.secLba], disk[pos.secLba + 1];
        var buf := Splice(a + b, pos.offSize, bs);
        StoreTwoSectors(disk[..], tableLba, no, bs, buf);
        disk[pos.secLba], disk[pos.secLba + 1] := buf[..SECTOR_SIZE], buf[SECTOR_SIZE..];
        assert disk[..] == old(disk[..])[pos.secLba := buf[..SECTOR_SIZE]][pos.secLba + 1 := buf[SECTOR_SIZE..]];
      } else {
        StoreOneSector(disk[..], tableLba, no, bs);
        disk[pos.secLba] := Splice(disk[pos.secLba], pos.offSize, bs);
        assert disk[..] == old(disk[..])[pos.secLba := Splice(old(disk[pos.secLba]), pos.offSize, bs)];
      }
      ok := true;
    }

    /** The part of inode_open that goes to the disk. */
    method ReadRecord(no: nat) returns (r: Record)
      requires Shape() && no < MAX_INODES
      ensures r == RecordAt(disk[..], tableLba, no) && |r.sectors| == 13
    {
      var pos := Locate(tableLba, no);
      var buf: seq<byte>;
      if pos.twoSec {
        var a: seq<byte>, b: seq<byte> := disk[pos.secLba], disk[pos.secLba + 1];
        buf := a + b;
      } else {
        buf := disk[pos.secLba];
      }
      forall k | 0 <= k < INODE_SIZE ensures buf[pos.offSize + k] == RecordBytes(disk[..], tableLba, no)[k] {
        LocateByte(tableLba, no, k);
        assert RecordBytes(disk[..], tableLba, no)[k] == ByteAt(disk[..], tableLba, INODE_SIZE * no + k);
        assert pos.twoSec && pos.offSize + k >= SECTOR_SIZE ==>
          buf[pos.offSize + k] == disk[pos.secLba + 1][(pos.offSize + k) % SECTOR_SIZE];
      }
      assert buf[pos.offSize..pos.offSize + INODE_SIZE] == RecordBytes(disk[..], tableLba, no);
      r := Unpack(buf[pos.offSize..pos.offSize + INODE_SIZE]);
    }

    /** An inode of this number is among the open ones. */
    ghost predicate IsOpen(no: nat)
      reads this, open
    {
      exists nd :: nd in open && nd.no as nat == no
    }

    /** inode_open: an inode that is open is given again, another is read from its record. What is read agrees with
        the disk from then on when the record is one that inode_sync left under this number. */
    method InodeOpen(no: nat) returns (r: Outcome<Inode>)
      requires Shape() && forall nd :: nd in open ==> nd.Valid()
      modifies this`open, open`openCnts
      ensures r == Halted <==> no >= MAX_INODES && !old(IsOpen(no))
      ensures r != Null
      ensures r == Halted ==> open == old(open)
      ensures r.Done? ==> (r.value in old(open) <==> old(IsOpen(no)))
      ensures r.Done? && r.value in old(open) ==>
        && r.value.no as nat == no && open == old(open) && r.value.openCnts == U32(old(r.value.openCnts) + 1)
        && (old(Cached()) ==> Cached() && no < MAX_INODES && r.value.Pure() == RecordAt(disk[..], tableLba, no))
      ensures r.Done? && r.value !in old(open) ==>
        no < MAX_INODES && var q := RecordAt(disk[..], tableLba, no);
        && fresh(r.value) && r.value.openCnts == 1 && open == [r.value] + old(open)
        && r.value.Pure() == Record(q.no, q.size, 0, 0, q.sectors, 0, 0) && r.value.writeDeny == (q.writeDeny != 0)
        && (old(Cached()) && Synced(q, no) ==> Cached())
      ensures r.Done? ==> r.value.Valid()
      ensures forall x :: x in old(open) && r != Done(x) ==> x.openCnts == old(x.openCnts)
    {
      hide RecordAt;
      var i := 0;
      while i < |open|
        invariant 0 <= i <= |open|
        invariant forall j :: 0 <= j < i ==> open[j].no != no
      {
        if open[i].no == no {
          var nd := open[i];
          assert nd in open && IsOpen(no);
          nd.openCnts := U32(nd.openCnts + 1);
          return Done(nd);
        }
        i := i + 1;
      }
      if no >= MAX_INODES {
        return Halted;
      }
      var nd := ReadInode(no);
      r := Done(nd);
    }

    /** The branch for an inode that is not in memory. */
    method ReadInode(no: nat) returns (nd: Inode)
      requires Shape() && no < MAX_INODES && forall x :: x in open ==> x.no as nat != no
      modifies this`open
      ensures fresh(nd) && nd.openCnts == 1 && open == [nd] + old(open) && nd.Valid()
      ensures var q := RecordAt(disk[..], tableLba, no);
        && nd.Pure() == Record(q.no, q.size, 0, 0, q.sectors, 0, 0) && nd.writeDeny == (q.writeDeny != 0)
        && (old(Cached()) && Synced(q, no) ==> Cached())
    {
      hide RecordAt;
      var rec := ReadRecord(no);
      nd := new Inode.FromRecord(rec);
      open := [nd] + open;
    }

    /** inode_close */
    method InodeClose(nd: Inode)
      requires Shape() && nd in open && forall i, j :: 0 <= i < j < |open| ==> open[i] != open[j]
      modifies this`open, nd`openCnts
      ensures nd.openCnts == U32(old(nd.openCnts) - 1)
      ensures open == if nd.openCnts == 0 then Without(old(open), nd) else old(open)
      ensures forall x :: x in open <==> x in old(open) && (x != nd || nd.openCnts != 0)
      ensures forall i, j :: 0 <= i < j < |open| ==> open[i] != open[j]
      ensures old(Cached()) ==> Cached()
    {
      hide RecordAt;
      nd.openCnts := U32(nd.openCnts - 1);
      if nd.openCnts == 0 {
        WithoutDrops(open, nd);
        open := Without(open, nd);
      }
    }

    /** block_bitmap_alloc: the lowest free sector. It halts on a full map and never returns -1. */
    method BlockAlloc() returns (r: Outcome<nat>)
      requires Shape()
      modifies blockMap.bits
      ensures r == Halted <==> FreeCount(old(blockMap.Map())) == 0
      ensures r == Halted ==> unchanged(blockMap.bits)
      ensures r != Null
      ensures r.Done? ==>
        && dataLba <= r.value < dataLba + 8 * blockMap.bytesLen
        && r.value !in old(Taken()) && Taken() == old(Taken()) + {r.value}
        && OneBit(old(blockMap.Map()), blockMap.Map(), r.value - dataLba)
        && FreeCount(blockMap.Map()) == FreeCount(old(blockMap.Map())) - 1
        && forall b :: dataLba <= b < r.value ==> b in old(Taken())
    {
      ghost var s := blockMap.Map();
      r := AllocBit(blockMap, s);
      if r.Done? {
        TakenUpdate(dataLba, s, r.value, true);
        r := Done(dataLba + r.value);
      }
    }

    ghost function Taken(): set<nat>
      requires Shape()
      reads blockMap.bits
    {
      TakenOf(dataLba, blockMap.Map())
    }

    /** bitmap_set(&part->block_bitmap, lba - data_start_lba, 0) */
    method BlockFree(lba: nat)
      requires Shape() && dataLba <= lba < dataLba + dataCnt
      modifies blockMap.bits
      ensures Taken() == old(Taken()) - {lba} && OneBit(old(blockMap.Map()), blockMap.Map(), lba - dataLba)
    {
      ghost var s := blockMap.Map();
      blockMap.Set(lba - dataLba, false);
      assert blockMap.Map() == s[lba - dataLba := false];
      TakenUpdate(dataLba, s, lba - dataLba, false);
    }

    /** block_bitmap_alloc with the bitmap_sync that every caller puts behind it. */
    method BlockTake() returns (r: Outcome<nat>)
      requires Shape()
      modifies blockMap.bits, blockArea
      ensures r == Halted <==> FreeCount(old(blockMap.Map())) == 0
      ensures r == Halted ==> unchanged(blockMap.bits) && unchanged(blockArea)
      ensures r != Null
      ensures r.Done? ==>
        && dataLba <= r.value < dataLba + 8 * blockMap.bytesLen
        && r.value !in old(Taken()) && Taken() == old(Taken()) + {r.value}
        && FreeCount(blockMap.Map()) == FreeCount(old(blockMap.Map())) - 1
        && (forall b :: dataLba <= b < r.value ==> b in old(Taken()))
        && (old(BlocksStored()) ==> BlocksStored())
    {
      hide AreaHolds, Wrote, OneBit, FreeCount, Taken;
      ghost var was := blockMap.Map();
      r := BlockAlloc();
      if r.Done? {
        BitmapSync(r.value - dataLba, BLOCK_BITMAP, was);
      }
    }

    /** bitmap_set to zero with the bitmap_sync that every caller puts behind it. */
    method BlockReturn(lba: nat)
      requires Shape() && dataLba <= lba < dataLba + dataCnt
      modifies blockMap.bits, blockArea
      ensures Taken() == old(Taken()) - {lba} && (old(BlocksStored()) ==> BlocksStored())
    {
      hide AreaHolds, Wrote, OneBit, Taken;
      ghost var was := blockMap.Map();
      BlockFree(lba);
      BitmapSync(lba - dataLba, BLOCK_BITMAP, was);
    }

    /** inode_bitmap_alloc */
    method InodeAlloc() returns (r: Outcome<nat>)
      requires Shape()
      modifies inodeMap.bits
      ensures r == Halted <==> AllSet(old(inodeMap.Map()))
      ensures r != Null
      ensures r.Done? ==>
        && r.value < MAX_INODES && !old(inodeMap.Map())[r.value]
        && inodeMap.Map() == old(inodeMap.Map())[r.value := true]
        && forall i :: 0 <= i < r.value ==> old(inodeMap.Map())[i]
    {
      ghost var s := inodeMap.Map();
      FreeCountZero(s);
      r := AllocBit(inodeMap, s);
    }

    /** bitmap_set(&part->inode_bitmap, no, 0) and the bitmap_sync behind it. */
    method InodeReturn(no: nat)
      requires Shape() && no < MAX_INODES
      modifies inodeMap.bits, inodeArea
      ensures inodeMap.Map() == old(inodeMap.Map())[no := false] && (old(InodesStored()) ==> InodesStored())
    {
      hide AreaHolds, Wrote;
      ghost var was := inodeMap.Map();
      inodeMap.Set(no, false);
      assert inodeMap.Map() == was[no := false];
      BitmapSync(no, INODE_BITMAP, was);
    }

    /** Both allocators: bitmap_scan for one bit, then bitmap_set. */
    static method AllocBit(m: Bitmap, ghost s: seq<bool>) returns (r: Outcome<nat>)
      requires m.Valid() && s == m.Map()
      modifies m.bits
      ensures r == Halted <==> FreeCount(s) == 0
      ensures r == Halted ==> unchanged(m.bits)
      ensures r != Null
      ensures r.Done? ==>
        && r.value < |s| && !s[r.value] && m.Map() == s[r.value := true]
        && FreeCount(m.Map()) == FreeCount(s) - 1
        && forall i :: 0 <= i < r.value ==> s[i]
    {
      FreeCountZero(s);
      var scan := m.Scan(1);
      match scan {
        case Panicked => return Halted;
        case NotFound =>
          SomeFree(s);
          assert false;
          return Null;
        case Found(idx) =>
          assert FreeRun(s, idx, 1) && !s[idx];
          AllBelow(s, idx);
          m.Set(idx, true);
          assert m.Map() == s[idx := true];
          FreeCountUpdate(s, idx, true);
          r := Done(idx);
      }
    }
  }

  lemma SomeFree(s: seq<bool>)
    requires !AllSet(s)
    ensures exists j: nat :: FreeRun(s, j, 1)
  {
    var k :| 0 <= k < |s| && !s[k];
    assert FreeRun(s, k, 1);
  }

  lemma AllBelow(s: seq<bool>, idx: nat)
    requires FirstFit(s, 1, idx)
    ensures forall i :: 0 <= i < idx ==> s[i]
  {
    forall i | 0 <= i < idx ensures s[i] {
      assert !FreeRun(s, i, 1);
    }
  }

  lemma {:induction false} WithoutDrops(q: seq<Inode>, x: Inode)
    requires forall i, j :: 0 <= i < j < |q| ==> q[i] != q[j]
    ensures var r := Without(q, x);
      (forall y :: y in r <==> y in q && y != x) && (forall i, j :: 0 <= i < j < |r| ==> r[i] != r[j])
  {
    if q == [] {
    } else {
      assert forall i :: 1 <= i < |q| ==> q[1..][i - 1] == q[i];
      if q[0] == x {
        assert x !in q[1..];
      } else {
        WithoutDrops(q[1..], x);
        assert q[0] !in Without(q[1..], x);
      }
    }
  }
}
