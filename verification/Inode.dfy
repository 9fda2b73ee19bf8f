/** Inode records and where they lie in the inode table: the arithmetic of fs/inode.c. */
module InodeTable {
  import opened Disks

  const INODE_SIZE: nat := 76   // sizeof(struct inode)
  const MAX_INODES: nat := 4096
  const TABLE_SECTS: nat := 608

  /** struct inode as memory holds it; prev and next are the links of inode_tag. */
  datatype Record = Record(no: word, size: word, openCnts: word, writeDeny: word, sectors: seq<word>, prev: word,
                           next: word)

  function Pack(r: Record): (bs: seq<byte>)
    requires |r.sectors| == 13
    ensures |bs| == INODE_SIZE
  {
    Encode([r.no, r.size, r.openCnts, r.writeDeny] + r.sectors + [r.prev, r.next])
  }

  function Unpack(bs: seq<byte>): (r: Record)
    requires |bs| == INODE_SIZE
    ensures |r.sectors| == 13
  {
    var ws := Decode(bs);
    Record(ws[0], ws[1], ws[2], ws[3], ws[4..17], ws[17], ws[18])
  }

  lemma UnpackPack(r: Record)
    requires |r.sectors| == 13
    ensures Unpack(Pack(r)) == r
  {
    DecodeEncode([r.no, r.size, r.openCnts, r.writeDeny] + r.sectors + [r.prev, r.next]);
  }

  /** struct inode as it lies on the disk: number, size, open count, write_deny, thirteen block numbers, and the two
      links of inode_tag, four bytes each. */
  lemma RecordLayout(r: Record, i: nat)
    requires |r.sectors| == 13 && i < 13
    ensures Pack(r)[0..4] == BytesOf(r.no) && Pack(r)[4..8] == BytesOf(r.size)
    ensures Pack(r)[8..12] == BytesOf(r.openCnts) && Pack(r)[12..16] == BytesOf(r.writeDeny)
    ensures Pack(r)[16 + 4 * i..20 + 4 * i] == BytesOf(r.sectors[i])
    ensures Pack(r)[68..72] == BytesOf(r.prev) && Pack(r)[72..76] == BytesOf(r.next)
  {
    hide BytesOf;
    var ws := [r.no, r.size, r.openCnts, r.writeDeny] + r.sectors + [r.prev, r.next];
    EncodedWord(ws, 0);
    EncodedWord(ws, 1);
    EncodedWord(ws, 2);
    EncodedWord(ws, 3);
    EncodedWord(ws, 4 + i);
    EncodedWord(ws, 17);
    EncodedWord(ws, 18);
    assert ws[4 + i] == r.sectors[i];
  }

  // ---------------------------------------------------------------- inode_locate

  datatype Position = Position(twoSec: bool, secLba: nat, offSize: nat)

  /** inode_locate. It says where the record's first byte is, and whether its last one is in the next sector. */
  function Locate(tableLba: nat, no: nat): (p: Position)
    ensures tableLba + INODE_SIZE * no / SECTOR_SIZE == p.secLba && p.offSize == INODE_SIZE * no % SECTOR_SIZE
    ensures p.twoSec <==> (INODE_SIZE * no + (INODE_SIZE - 1)) / SECTOR_SIZE != INODE_SIZE * no / SECTOR_SIZE
    ensures no < MAX_INODES ==> p.secLba + (if p.twoSec then 1 else 0) < tableLba + TABLE_SECTS
  {
    var offSize := no * INODE_SIZE;
    var offSec, offSizeInSec := offSize / SECTOR_SIZE, offSize % SECTOR_SIZE;
    var leftInSec := SECTOR_SIZE - offSizeInSec;
    Position(leftInSec < INODE_SIZE, tableLba + offSec, offSizeInSec)
  }

  /** Every byte of the record is where inode_locate says, in the first sector or in the next. */
  lemma LocateByte(tableLba: nat, no: nat, k: nat)
    requires k < INODE_SIZE
    ensures var p := Locate(tableLba, no);
      && tableLba + (INODE_SIZE * no + k) / SECTOR_SIZE == p.secLba + (p.offSize + k) / SECTOR_SIZE
      && (INODE_SIZE * no + k) % SECTOR_SIZE == (p.offSize + k) % SECTOR_SIZE
      && (!p.twoSec ==> p.offSize + k < SECTOR_SIZE)
  {
  }

  /** How many bytes of the buffer it is given inode_sync fills and writes back, for the number it works with. */
  function BufferUse(tableLba: nat, no: nat): nat {
    if Locate(tableLba, no % 0x100).twoSec then 2 * SECTOR_SIZE else SECTOR_SIZE
  }

  lemma StraddlesIff(tableLba: nat, no: nat)
    ensures Locate(tableLba, no).twoSec <==> INODE_SIZE * no % SECTOR_SIZE > SECTOR_SIZE - INODE_SIZE
  {
    assert no * INODE_SIZE == INODE_SIZE * no;
  }

  /** Of the first seven records that of inode 6 alone lies in two sectors. */
  lemma FirstSeven(tableLba: nat, m: nat)
    requires m <= 6
    ensures BufferUse(tableLba, m) == if m == 6 then 2 * SECTOR_SIZE else SECTOR_SIZE
  {
    hide Locate;
    assert m % 0x100 == m;
    StraddlesIff(tableLba, m);
    assert INODE_SIZE * m % SECTOR_SIZE == INODE_SIZE * m;
  }

  /** file_write lends inode_sync a buffer of one sector. It is too small exactly for the records whose first byte
      lies in the last 75 of a sector; of the first seven inodes that is number 6 alone. */
  lemma SectorBufferTooSmallIff(tableLba: nat, no: nat)
    ensures BufferUse(tableLba, no) > SECTOR_SIZE <==>
      INODE_SIZE * (no % 0x100) % SECTOR_SIZE > SECTOR_SIZE - INODE_SIZE
    ensures BufferUse(tableLba, 6) == 2 * SECTOR_SIZE && forall m :: 0 <= m < 6 ==>
      BufferUse(tableLba, m) == SECTOR_SIZE
  {
    FirstSeven(tableLba, 6);
    forall m | 0 <= m < 6 ensures BufferUse(tableLba, m) == SECTOR_SIZE {
      FirstSeven(tableLba, m);
    }
    hide Locate;
    StraddlesIff(tableLba, no % 0x100);
  }

  // ---------------------------------------------------------------- the table as a run of bytes

  ghost predicate HasTable(d: seq<Sector>, t: nat) {
    t + TABLE_SECTS <= |d|
  }

  function RecordBytes(d: seq<Sector>, t: nat, no: nat): (bs: seq<byte>)
    requires HasTable(d, t) && no < MAX_INODES
    ensures |bs| == INODE_SIZE
  {
    seq<byte>(INODE_SIZE, k requires 0 <= k < INODE_SIZE => ByteAt(d, t, INODE_SIZE * no + k))
  }

  /** What inode_open reads for inode `no`. */
  function RecordAt(d: seq<Sector>, t: nat, no: nat): (r: Record)
    requires HasTable(d, t) && no < MAX_INODES
    ensures |r.sectors| == 13
  {
    Unpack(RecordBytes(d, t, no))
  }

  /** `d` is `d0` with `bs` in the place of record `no`, and no other byte changed. */
  ghost predicate RecordStored(d0: seq<Sector>, d: seq<Sector>, t: nat, no: nat, bs: seq<byte>)
    requires HasTable(d0, t) && no < MAX_INODES && |bs| == INODE_SIZE
  {
    && |d| == |d0|
    && (forall s :: 0 <= s < |d| && !(t <= s < t + TABLE_SECTS) ==> d[s] == d0[s])
    && forall k :: 0 <= k < TABLE_SECTS * SECTOR_SIZE ==>
         ByteAt(d, t, k) ==
           if INODE_SIZE * no <= k < INODE_SIZE * no + INODE_SIZE then bs[k - INODE_SIZE * no] else ByteAt(d0, t, k)
  }

  lemma StoreOneSector(d: seq<Sector>, t: nat, no: nat, bs: seq<byte>)
    requires HasTable(d, t) && no < MAX_INODES && |bs| == INODE_SIZE && !Locate(t, no).twoSec
    ensures var p := Locate(t, no);
      RecordStored(d, d[p.secLba := Splice(d[p.secLba], p.offSize, bs)], t, no, bs)
  {
  }

  function TwoSectors(d: seq<Sector>, s: nat): (buf: seq<byte>)
    requires s + 1 < |d|
    ensures |buf| == 2 * SECTOR_SIZE
  {
    var a: seq<byte>, b: seq<byte> := d[s], d[s + 1];
    a + b
  }

  lemma StoreTwoSectors(d: seq<Sector>, t: nat, no: nat, bs: seq<byte>, buf: seq<byte>)
    requires HasTable(d, t) && no < MAX_INODES && |bs| == INODE_SIZE && Locate(t, no).twoSec
    requires var p := Locate(t, no); buf == Splice(TwoSectors(d, p.secLba), p.offSize, bs)
    ensures var p := Locate(t, no);
      RecordStored(d, d[p.secLba := buf[..SECTOR_SIZE]][p.secLba + 1 := buf[SECTOR_SIZE..]], t, no, bs)
  {
  }

  /** A stored record is what a read gives back, and every other record reads as before. */
  lemma StoredReads(d0: seq<Sector>, d: seq<Sector>, t: nat, no: nat, bs: seq<byte>, m: nat)
    requires HasTable(d0, t) && no < MAX_INODES && |bs| == INODE_SIZE && m < MAX_INODES
    requires RecordStored(d0, d, t, no, bs)
    ensures RecordBytes(d, t, m) == if m == no then bs else RecordBytes(d0, t, m)
  {
    hide ByteAt;
    forall k | 0 <= k < INODE_SIZE
      ensures RecordBytes(d, t, m)[k] == (if m == no then bs else RecordBytes(d0, t, m))[k]
    {
      InOneRecord(no, m, k);
      assert RecordBytes(d, t, m)[k] == ByteAt(d, t, INODE_SIZE * m + k);
    }
  }

  lemma InOneRecord(no: nat, m: nat, k: nat)
    requires k < INODE_SIZE && m < MAX_INODES
    ensures INODE_SIZE * m + k < TABLE_SECTS * SECTOR_SIZE
    ensures INODE_SIZE * no <= INODE_SIZE * m + k < INODE_SIZE * no + INODE_SIZE <==> m == no
  {
  }
}
