/** The block layer as a whole: append, create, mkdir, unlink and inode_release on one partition. */
module FileSystems {
  import opened Bitmaps
  import opened Outcomes
  import opened Disks
  import opened InodeTable
  import opened Partitions
  import opened FileBlocks
  import opened FileGrowth
  import opened Files
  import opened DirSlots
  import opened Directories
  import opened Ownership

  class FileSystem {
    const part: Partition
    ghost var nodes: map<nat, Node>  // the inodes in use

    constructor (part: Partition, ghost nodes: map<nat, Node>)
      ensures this.part == part && this.nodes == nodes
    {
      this.part, this.nodes := part, nodes;
    }

    ghost function Lo(): nat {
      part.dataLba
    }

    ghost function Hi(): nat {
      part.dataLba + part.dataCnt
    }

    ghost predicate Sound()
      reads this, part.disk, part.blockMap.bits
      requires part.Shape()
    {
      && Consistent(nodes, part.disk[..], part.Taken(), Lo(), Hi(), part.tableLba)
      && TailTaken(part.dataLba, part.dataCnt, part.blockMap.bytesLen, part.Taken())
    }

    ghost predicate OpenKnown()
      reads this, part, part.open
    {
      forall nd :: nd in part.open ==> nd.no as nat in nodes
    }

    /** Inode bits say which inodes are in use. */
    ghost predicate BitsKnown()
      reads this, part.inodeMap.bits
      requires part.Shape()
    {
      forall i: nat :: i < MAX_INODES ==> (part.inodeMap.Map()[i] <==> i in nodes)
    }

    /** Both maps are on the disk as they are in memory. */
    ghost predicate MapsStored()
      requires part.Shape()
      reads part.blockMap.bits, part.inodeMap.bits, part.blockArea, part.inodeArea
    {
      part.BlocksStored() && part.InodesStored()
    }

    /** All but the names. */
    ghost predicate Core()
      reads this, part, part.disk, part.blockMap.bits, part.inodeMap.bits, part.blockArea, part.inodeArea, part.open
    {
      part.Shape() && part.Cached() && Sound() && OpenKnown() && BitsKnown() && MapsStored()
    }

    ghost predicate Valid()
      reads this, part, part.disk, part.blockMap.bits, part.inodeMap.bits, part.blockArea, part.inodeArea, part.open
    {
      Core() && Linked(nodes)
    }

    /** What the inode holds now. */
    ghost function Contents(i: nat): (seq<byte>, map<seq<byte>, Info>)
      reads this, part.disk
      requires i in nodes
    {
      Holds(nodes[i], part.disk[..])
    }

    /** The blocks inode `i` owns, none if it is not in use. */
    ghost function Blocks(i: nat): set<nat>
      reads this, part.disk
    {
      if i in nodes then Owned(nodes[i], part.disk[..]) else {}
    }

    // -------------------------------------------------------------- open inodes

    /** The inode in memory is the inode in use. */
    lemma OpenIs(nd: Inode)
      requires part.Shape() && part.Cached() && Sound() && OpenKnown() && nd in part.open
      ensures nd.Valid() && nd.no < 0x100 && nd.no as nat in nodes
      ensures nodes[nd.no].size == nd.size && nodes[nd.no].sectors == nd.sectors
      ensures NodeOk(Lo(), Hi(), nodes[nd.no], part.disk[..])
      ensures Owned(nodes[nd.no], part.disk[..]) == Footprint(nd.sectors, part.disk[..]) <= part.Taken()
    {
      hide Consistent, Partition.Cached, NodeOk, Footprint;
      OpenNode(part, nodes, nd, part.Taken());
    }

    /** inode_open of an inode in use: whether it comes from memory or from the disk, it is the same inode. */
    method Open(no: nat) returns (r: Outcome<Inode>)
      requires Valid() && no in nodes
      modifies part`open, part.open`openCnts
      ensures Valid() && r.Done? && r.value in part.open && r.value.no as nat == no
      ensures r.value.size == nodes[no].size && r.value.sectors == nodes[no].sectors
      ensures if old(part.IsOpen(no)) then
          part.open == old(part.open) && r.value.openCnts == U32(old(r.value.openCnts) + 1)
        else fresh(r.value) && part.open == [r.value] + old(part.open) && r.value.openCnts == 1
      ensures forall x :: x in old(part.open) && x != r.value ==> x.openCnts == old(x.openCnts)
    {
      hide Consistent, RecordAt, Linked, TailTaken, Bitmap.Map, Bitmap.Valid, Partition.Taken, Footprint, Owned,
        Partition.Cached, HasTable, Partition.BlocksStored, Partition.InodesStored;
      InUse(no);
      OneNumber();
      r := part.InodeOpen(no);
      assert r.value.Pure() == RecordOf(no, nodes[no]);
      assert OpenKnown();
    }

    /** inode_close */
    method Close(nd: Inode)
      requires Valid() && nd in part.open
      modifies part`open, nd`openCnts
      ensures Valid() && nd.openCnts == U32(old(nd.openCnts) - 1)
      ensures part.open == if nd.openCnts == 0 then Without(old(part.open), nd) else old(part.open)
    {
      hide Consistent, RecordAt, Linked, TailTaken, Bitmap.Map, Partition.Taken, Partition.BlocksStored,
        Partition.InodesStored;
      part.InodeClose(nd);
    }

    lemma WithoutFirst(q: seq<Inode>, nd: Inode)
      ensures Without([nd] + q, nd) == q
    {
      assert ([nd] + q)[1..] == q;
    }

    /** Opening an inode that is not open `n` times: one inode in memory, counted n times. */
    method OpenTimes(no: nat, n: nat) returns (nd: Inode)
      requires Valid() && no in nodes && !part.IsOpen(no) && 0 < n < 0x1_0000_0000
      modifies part`open, part.open`openCnts
      ensures Valid() && nodes == old(nodes) && nd.no as nat == no && nd.openCnts as nat == n && fresh(nd)
      ensures part.open == [nd] + old(part.open)
      ensures forall x :: x in old(part.open) ==> x.openCnts == old(x.openCnts)
    {
      hide Valid, Partition.Cached;
      ghost var q := part.open;
      var first := Open(no);
      nd := first.value;
      var k := 1;
      while k < n
        invariant 1 <= k <= n && Valid() && part.open == [nd] + q && fresh(nd)
        invariant nd.no as nat == no && nd.openCnts as nat == k
        invariant forall x :: x in q ==> x.openCnts == old(x.openCnts)
      {
        assert part.IsOpen(no);
        var again := Open(no);
        SameNumber(nd, again.value);
        k := k + 1;
      }
    }

    lemma SameNumber(a: Inode, b: Inode)
      requires Valid() && a in part.open && b in part.open && a.no == b.no
      ensures a == b
    {
      hide Consistent, RecordAt, Linked, TailTaken, Partition.Taken, Partition.BlocksStored, Partition.InodesStored;
    }

    /** Closing an open inode `n` times: it is among the open ones until the last close, and gone with that. */
    method CloseTimes(nd: Inode, n: nat)
      requires Valid() && nd in part.open && n <= nd.openCnts as nat
      modifies part`open, nd`openCnts
      ensures Valid() && nodes == old(nodes) && nd.openCnts as nat == old(nd.openCnts) as nat - n
      ensures part.open == if 0 < n == old(nd.openCnts) as nat then Without(old(part.open), nd) else old(part.open)
    {
      hide Valid;
      var k := 0;
      while k < n
        invariant 0 <= k <= n && Valid() && nd.openCnts as nat == old(nd.openCnts) as nat - k
        invariant part.open == if 0 < k == old(nd.openCnts) as nat then Without(old(part.open), nd) else old(part.open)
      {
        Close(nd);
        k := k + 1;
      }
    }

    /** As many closes as opens leave the open inodes as they were, and one close less does not. */
    method OpenAndClose(no: nat, n: nat, m: nat)
      requires Valid() && no in nodes && !part.IsOpen(no) && 0 < n < 0x1_0000_0000 && m <= n
      modifies part`open, part.open`openCnts
      ensures Valid() && nodes == old(nodes) && (part.IsOpen(no) <==> m < n)
      ensures m == n ==> part.open == old(part.open)
      ensures forall x :: x in old(part.open) ==> x.openCnts == old(x.openCnts)
    {
      hide Valid;
      ghost var q := part.open;
      var nd := OpenTimes(no, n);
      CloseTimes(nd, m);
      WithoutFirst(q, nd);
      if m < n {
        assert nd in part.open;
      }
    }

    /** file_write on the partition: this file is longer by the buffer, every other inode holds what it held. */
    method Append(f: File, src: seq<byte>) returns (r: Outcome<word>)
      requires Valid() && f.inode in part.open && nodes[f.inode.no].FileNode?
      requires f.inode.size + |src| < 0x1_0000_0000
      modifies this`nodes, part.disk, part.blockMap.bits, part.blockArea, f.inode`size, f.inode`sectors, f`pos
      ensures r == Null <==> old(f.inode.size) + |src| > MAX_FILE
      ensures r == Halted <==>
        || old(f.inode.size) + |src| == MAX_FILE
        || (old(f.inode.size) + |src| < MAX_FILE
            && FreeCount(old(part.blockMap.Map())) < NeededBlocks(old(f.inode.sectors), old(f.inode.size), |src|))
      ensures r != Halted ==> Valid() && nodes.Keys == old(nodes).Keys
      ensures r == Null ==> nodes == old(nodes) && unchanged(part.disk) && unchanged(part.blockMap.bits)
      ensures r == Null ==> unchanged(part.blockArea) && unchanged(f.inode) && unchanged(f)
      ensures r.Done? ==> f.inode.size == old(f.inode.size) + |src| && f.pos == U32(f.inode.size - 1)
      ensures r.Done? ==>
        && r.value == |src| && Contents(f.inode.no).0 == old(Contents(f.inode.no)).0 + src
        && forall i :: i in nodes && i != f.inode.no as nat ==>
             nodes[i] == old(nodes)[i] && Undisturbed(nodes[i], old(part.disk[..]), part.disk[..])
    {
      hide Linked, Consistent, FileOk, RecordAt, Footprint, TailTaken, Owns, Content, Holds, OnlyRecord, OwnMap,
        FreeCount, DirOk, Bitmap.Valid, Bitmap.Map, Partition.Taken, NeededBlocks, Owned, Partition.BlocksStored,
        Partition.InodesStored, Written, Partition.Cached;
      ghost var k := f.inode.no;
      ghost var d0, taken0, s0, size0 := part.disk[..], part.Taken(), f.inode.sectors, f.inode.size;
      OpenIs(f.inode);
      r := WriteOpen(part, f, src);
      if r.Done? {
        ghost var x := FileNode(f.inode.size, f.inode.sectors);
        AppendedNode(nodes, d0, taken0, Lo(), Hi(), part.tableLba, k, s0, size0, src, x, part.disk[..], part.Taken());
        LinkedSame(nodes, k, x);
        nodes := nodes[k as nat := x];
      }
    }

    // -------------------------------------------------------------- inode_release

    /** The inode is open and somebody holds it. */
    ghost predicate Held(no: nat)
      reads part, part.open
    {
      exists nd :: nd in part.open && nd.no as nat == no && nd.openCnts != 0
    }

    /** inode_release. It gives back exactly the inode's blocks and its number; only the root's block trips an
        assertion. An inode somebody still holds open stays among the open ones, and that is the one way in which
        memory and disk part. */
    method InodeRelease(no: nat) returns (ok: bool)
      requires Core() && no in nodes
      modifies this`nodes, part`open, part.open`openCnts, part.disk, part.blockMap.bits, part.blockArea,
        part.inodeMap.bits, part.inodeArea
      ensures ok <==> no != 0
      ensures ok ==>
        && Sound() && BitsKnown() && MapsStored() && nodes == old(nodes) - {no}
        && part.Taken() == old(part.Taken()) - old(Owned(nodes[no], part.disk[..]))
        && part.inodeMap.Map() == old(part.inodeMap.Map())[no := false]
        && forall i :: i in nodes ==> Undisturbed(nodes[i], old(part.disk[..]), part.disk[..])
      ensures ok ==>
        && (Core() <==> !part.IsOpen(no)) && (part.IsOpen(no) <==> old(Held(no)))
        && forall nd :: nd in part.open <==> nd in old(part.open) && (nd.no as nat != no || old(nd.openCnts) != 0)
      ensures ok ==> forall x :: x in old(part.open) ==> x.openCnts == old(x.openCnts)
      ensures ok && (old(Held(no)) || !old(part.IsOpen(no))) ==> part.open == old(part.open)
    {
      hide Consistent, RecordAt, TailTaken, Holds, OnlyRecord, OwnMap, Owned, Footprint, Partition.Taken,
        Partition.Cached, Bitmap.Map, Unpack, Zeros, HasTable, FreeCount, Bitmap.Valid, Partition.BlocksStored,
        Partition.InodesStored, Partition.IsOpen, Held;
      ghost var d0, taken0 := part.disk[..], part.Taken();
      InUse(no);
      ok := ReleaseSteps(no);
      if !ok {
        return;
      }
      NodeGone(nodes, d0, taken0, Lo(), Hi(), part.tableLba, no, Unpack(Zeros(INODE_SIZE)), part.disk[..],
               part.Taken());
      TailLeft(part, taken0, Owned(nodes[no], d0), part.Taken());
      nodes := nodes - {no};
      CoreIff(no);
    }

    lemma CoreIff(no: nat)
      requires part.Shape() && Sound() && BitsKnown() && MapsStored() && no !in nodes
      requires forall x :: x in part.open && x.no as nat != no ==> x.no as nat in nodes
      requires !part.IsOpen(no) ==> part.Cached()
      ensures Core() <==> !part.IsOpen(no)
    {
      hide Consistent, TailTaken, Partition.Taken, Partition.Cached, Partition.BlocksStored, Partition.InodesStored,
        Bitmap.Map, Bitmap.Valid;
    }

    /** What inode_release does, one half after the other. */
    method ReleaseSteps(no: nat) returns (ok: bool)
      requires part.Shape() && part.Cached() && no < MAX_INODES
      requires var q := RecordAt(part.disk[..], part.tableLba, no);
        Synced(q, no) && forall b :: b in Footprint(q.sectors, part.disk[..]) ==> Lo() <= b < Hi()
      modifies part`open, part.open`openCnts, part.disk, part.blockMap.bits, part.blockArea,
        part.inodeMap.bits, part.inodeArea
      ensures ok <==> Lo() !in old(Footprint(RecordAt(part.disk[..], part.tableLba, no).sectors, part.disk[..]))
      ensures ok ==>
        && part.Taken() ==
             old(part.Taken()) - old(Footprint(RecordAt(part.disk[..], part.tableLba, no).sectors, part.disk[..]))
        && part.inodeMap.Map() == old(part.inodeMap.Map())[no := false]
        && OnlyRecord(old(part.disk[..]), part.disk[..], part.tableLba, part.dataLba, no, Unpack(Zeros(INODE_SIZE)))
        && forall b :: part.dataLba <= b < part.disk.Length ==> part.disk[b] == old(part.disk[b])
      ensures ok ==>
        (old(part.BlocksStored()) ==> part.BlocksStored()) && (old(part.InodesStored()) ==> part.InodesStored())
      ensures ok ==>
        && (part.IsOpen(no) <==> old(Held(no))) && (!part.IsOpen(no) ==> part.Cached())
        && forall nd :: nd in part.open <==> nd in old(part.open) && (nd.no as nat != no || old(nd.openCnts) != 0)
      ensures ok ==> forall x :: x in old(part.open) ==> x.openCnts == old(x.openCnts)
      ensures ok && (old(Held(no)) || !old(part.IsOpen(no))) ==> part.open == old(part.open)
    {
      hide RecordAt, Footprint, OnlyRecord, Partition.Taken, Partition.Cached, Bitmap.Map, Unpack, Zeros, HasTable,
        Bitmap.Valid, Partition.BlocksStored, Partition.InodesStored, Synced, U32;
      OneNumber();
      ghost var q := part.open;
      var nd;
      ok, nd := OpenAndFree(no);
      WithoutFirst(q, nd);
      if ok {
        BackAgain(if nd in q then old(nd.openCnts) else 0);
        CloseReleased(nd);
        assert nd in part.open ==> part.IsOpen(no);
      }
    }

    /** One up and one down, wrapping around or not. */
    lemma BackAgain(c: word)
      ensures U32(U32(c + 1) - 1) == c && U32(1 - 1) == 0
    {
    }


    lemma OneNumber()
      requires part.Shape() && part.Cached()
      ensures forall a, b :: a in part.open && b in part.open && a.no == b.no ==> a == b
      ensures forall nd :: nd in part.open ==> nd.Valid()
    {
    }

    /** The first half of inode_release: the inode opened, its blocks given back. */
    method OpenAndFree(no: nat) returns (ok: bool, nd: Inode)
      requires part.Shape() && part.Cached() && no < MAX_INODES
      requires var q := RecordAt(part.disk[..], part.tableLba, no);
        Synced(q, no) && forall b :: b in Footprint(q.sectors, part.disk[..]) ==> Lo() <= b < Hi()
      modifies part`open, part.open`openCnts, part.blockMap.bits, part.blockArea
      ensures ok <==> Lo() !in Footprint(RecordAt(part.disk[..], part.tableLba, no).sectors, part.disk[..])
      ensures ok ==>
        && part.Taken() ==
             old(part.Taken()) - Footprint(RecordAt(part.disk[..], part.tableLba, no).sectors, part.disk[..])
        && (old(part.BlocksStored()) ==> part.BlocksStored()) && part.Cached() && nd in part.open && nd.no as nat == no
      ensures ok ==>
        if nd in old(part.open) then part.open == old(part.open) && nd.openCnts == U32(old(nd.openCnts) + 1)
        else fresh(nd) && nd.openCnts == 1 && part.open == [nd] + old(part.open) && !old(part.IsOpen(no))
      ensures forall x :: x in old(part.open) && x != nd ==> x.openCnts == old(x.openCnts)
    {
      hide RecordAt, Footprint, Partition.Taken, Partition.BlocksStored, Synced;
      var o := part.InodeOpen(no);
      nd := o.value;
      SyncedHas(RecordAt(part.disk[..], part.tableLba, no), no);
      if nd.no as nat != no {
        return false, nd;
      }
      ok := FreeBlocks(part, nd);
    }

    lemma SyncedHas(q: Record, no: nat)
      requires Synced(q, no)
      ensures q == Record(q.no, q.size, 0, 0, q.sectors, 0, 0) && q.no == no
    {
    }

    /** The open inodes but this one are what a read from the disk would give. */
    ghost predicate CachedBut(nd: Inode)
      requires part.Shape()
      reads part, part.disk, part.open
    {
      && (forall i, j :: 0 <= i < j < |part.open| ==> part.open[i] != part.open[j])
      && (forall a, b :: a in part.open && b in part.open && a.no == b.no ==> a == b)
      && forall x :: x in part.open && x != nd ==>
           x.no < MAX_INODES && x.Valid() && RecordAt(part.disk[..], part.tableLba, x.no) == x.Pure()
    }

    /** The second half: number and record cleared, the inode closed. */
    method CloseReleased(nd: Inode)
      requires part.Shape() && part.Cached() && nd in part.open
      modifies part`open, nd`openCnts, part.disk, part.inodeMap.bits, part.inodeArea
      ensures part.inodeMap.Map() == old(part.inodeMap.Map())[nd.no as nat := false]
      ensures old(part.InodesStored()) ==> part.InodesStored()
      ensures OnlyRecord(old(part.disk[..]), part.disk[..], part.tableLba, part.dataLba, nd.no,
                         Unpack(Zeros(INODE_SIZE)))
      ensures forall b :: part.dataLba <= b < part.disk.Length ==> part.disk[b] == old(part.disk[b])
      ensures nd.openCnts == U32(old(nd.openCnts) - 1) && (nd !in part.open ==> part.Cached())
      ensures part.open == if nd.openCnts == 0 then Without(old(part.open), nd) else old(part.open)
      ensures forall x :: x in part.open <==> x in old(part.open) && (x != nd || nd.openCnts != 0)
    {
      hide RecordAt, OnlyRecord, Unpack, Zeros, Partition.InodesStored, Bitmap.Map, Partition.Cached;
      ClearNumber(nd);
      part.InodeClose(nd);
      if nd !in part.open {
        CachedAll(nd);
      }
    }

    lemma CachedAll(nd: Inode)
      requires part.Shape() && nd !in part.open && CachedBut(nd)
      ensures part.Cached()
    {
      hide RecordAt;
    }

    /** Number and record cleared. */
    method ClearNumber(nd: Inode)
      requires part.Shape() && part.Cached() && nd in part.open
      modifies part.disk, part.inodeMap.bits, part.inodeArea
      ensures nd.no < MAX_INODES && part.inodeMap.Map() == old(part.inodeMap.Map())[nd.no as nat := false]
      ensures old(part.InodesStored()) ==> part.InodesStored()
      ensures OnlyRecord(old(part.disk[..]), part.disk[..], part.tableLba, part.dataLba, nd.no,
                         Unpack(Zeros(INODE_SIZE)))
      ensures forall b :: part.dataLba <= b < part.disk.Length ==> part.disk[b] == old(part.disk[b])
      ensures CachedBut(nd)
    {
      hide RecordAt, RecordStored, OnlyRecord, Unpack, Zeros, Partition.InodesStored, Bitmap.Map;
      ghost var d0 := part.disk[..];
      assert forall x :: x in part.open ==>
        RecordAt(d0, part.tableLba, x.no) == x.Pure() && (x != nd ==> x.no != nd.no);
      part.InodeReturn(nd.no);
      var ok := part.InodeDelete(nd.no);
      StoredOnly0(d0, part.disk[..], part.tableLba, part.dataLba, nd.no);
      forall x | x in part.open && x != nd ensures RecordAt(part.disk[..], part.tableLba, x.no) == x.Pure() {
        OtherRecord(d0, part.disk[..], part.tableLba, part.dataLba, nd.no, Unpack(Zeros(INODE_SIZE)), x.no);
      }
    }

    /** An inode in use: where it is stored, what it owns, and which blocks those may be. */
    lemma InUse(no: nat)
      requires Core() && no in nodes
      ensures no < 0x100 && RecordAt(part.disk[..], part.tableLba, no) == RecordOf(no, nodes[no])
      ensures |nodes[no].sectors| == 13
      ensures Owned(nodes[no], part.disk[..]) == Footprint(nodes[no].sectors, part.disk[..])
      ensures forall b :: b in Owned(nodes[no], part.disk[..]) ==> Lo() <= b < Hi()
      ensures Lo() in Owned(nodes[no], part.disk[..]) <==> no == 0
    {
      hide RecordAt, Footprint, NodeOk;
      OwnedRange(Lo(), Hi(), nodes[no], part.disk[..]);
      RootBlock(Lo(), Hi(), nodes[0], part.disk[..]);
      if Lo() in Owned(nodes[no], part.disk[..]) {
        OneOwner(nodes, part.disk[..], part.Taken(), Lo(), Hi(), part.tableLba, no, 0, Lo());
      }
    }

    // -------------------------------------------------------------- unlink

    /** delete_dir_entry on the partition: the directory loses one name, and a block if that was the last in it. */
    method DropName(parent: Inode, ino: nat) returns (r: Outcome<bool>, ghost name: seq<byte>)
      requires Core() && parent in part.open && nodes[parent.no].DirNode? && Listed(nodes[parent.no].names, ino)
      modifies this`nodes, part.disk, part.blockMap.bits, part.blockArea, parent`size, parent`sectors
      ensures r == Done(true) && Core()
      ensures
        var m := old(nodes[parent.no].names);
        && name in m && !Dotted(name) && m[name].ino == ino
        && nodes == old(nodes)[parent.no as nat := DirNode(parent.size, parent.sectors, m - {name})]
      ensures Blocks(parent.no) <= old(Blocks(parent.no))
      ensures part.Taken() == old(part.Taken()) - (old(Blocks(parent.no)) - Blocks(parent.no))
      ensures forall i :: i in nodes && i != parent.no as nat ==>
        nodes[i] == old(nodes[i]) && Undisturbed(nodes[i], old(part.disk[..]), part.disk[..])
    {
      hide Consistent, RecordAt, TailTaken, Holds, OnlyRecord, OwnMap, Owned, Footprint, Partition.Taken, Bitmap.Map,
        Listed, Deleted, Dotted, HasTable, FreeCount, Bitmap.Valid, Live, At, Key, Partition.Cached, DirOk, FileOk,
        Partition.BlocksStored, Partition.InodesStored;
      ghost var d0, taken0 := part.disk[..], part.Taken();
      ghost var k, m := parent.no, nodes[parent.no].names;
      OpenIs(parent);
      ghost var b, i;
      r, name, b, i := DropEntry(part, parent, ino, m);
      ghost var x := DirNode(parent.size, parent.sectors, m - {name});
      assert RecordOf(k, x) == parent.Pure();
      DeletedSound(part, nodes, d0, taken0, k, x, b, i);
      nodes := nodes[k as nat := x];
    }

    /** When sys_unlink takes a name away: it can be found, it is no directory's, and its file is not in use. */
    ghost predicate Removable(m: map<seq<byte>, Info>, name: seq<byte>, inUse: seq<word>) {
      Findable(m, name) && m[name].fileType != FT_DIRECTORY && m[name].ino !in inUse
    }

    /** sys_unlink of a name in an open directory; `inUse` are the inodes of the file table. The name goes with
        its file, exactly that file's blocks and perhaps one of the directory are given back, and every other
        inode holds what it held. A dot name of the root trips the first assertion. */
    method Unlink(parent: Inode, name: seq<byte>, inUse: seq<word>) returns (r: Outcome<bool>)
      requires Valid() && parent in part.open && nodes[parent.no].DirNode?
      requires 0 < |name| <= NAME_LEN && 0 !in name
      requires forall nd :: nd in part.open && nodes[nd.no].FileNode? ==> nd.no in inUse
      modifies this`nodes, part`open, part.open`openCnts, part.disk, part.blockMap.bits, part.blockArea,
        part.inodeMap.bits, part.inodeArea, parent`size, parent`sectors
      ensures Valid() && part.open == old(part.open)
      ensures forall x :: x in old(part.open) ==> x.openCnts == old(x.openCnts)
      ensures var m := old(nodes[parent.no].names);
        r == if Findable(m, name) && m[name].ino == 0 then Halted
             else if Removable(m, name, inUse) then Done(true) else Null
      ensures !r.Done? ==>
        nodes == old(nodes) && unchanged(part.disk) && unchanged(part.blockMap.bits) && unchanged(part.inodeMap.bits)
      ensures r.Done? ==>
        var m := old(nodes[parent.no].names);
        && nodes ==
             old(nodes)[parent.no as nat := DirNode(parent.size, parent.sectors, m - {name})] - {m[name].ino as nat}
        && (forall i :: i in nodes && i != parent.no as nat ==>
              Undisturbed(nodes[i], old(part.disk[..]), part.disk[..]))
        && part.Taken() == old(part.Taken()) - old(Blocks(nodes[parent.no].names[name].ino))
                           - (old(Blocks(parent.no)) - Blocks(parent.no))
    {
      hide Consistent, RecordAt, TailTaken, Holds, OnlyRecord, OwnMap, Owned, Footprint, Partition.Taken, Bitmap.Map,
        Linked, Dotted, HasTable, FreeCount, Bitmap.Valid, Partition.Cached, DirOk, FileOk, Key, Listed, HasName,
        Goal, LeadsTo, Partition.BlocksStored, Partition.InodesStored;
      ghost var k, m, nodes0, d0 := parent.no, nodes[parent.no].names, nodes, part.disk[..];
      OpenIs(parent);
      var found, e := SearchName(part, parent, name, m);
      if found && e.ino == 0 {
        RootNotRemovable(nodes, k, name);
        return Halted;
      }
      if !found {
        return Null;
      }
      if e.fileType == FT_DIRECTORY {
        return Null;
      }
      if e.ino in inUse {
        return Null;
      }
      FileNamed(nodes, k, name);
      RemoveFile(parent, name, e.ino);
      r := Done(true);
    }

    /** The end of sys_unlink: delete_dir_entry, then inode_release. */
    method RemoveFile(parent: Inode, ghost name: seq<byte>, ino: word)
      requires Valid() && parent in part.open && nodes[parent.no].DirNode? && HasName(nodes, parent.no, name)
      requires nodes[parent.no].names[name].ino == ino && ino as nat in nodes && nodes[ino].FileNode? && ino != 0
      requires forall nd :: nd in part.open ==> nd.no != ino
      modifies this`nodes, part`open, part.open`openCnts, part.disk, part.blockMap.bits, part.blockArea,
        part.inodeMap.bits, part.inodeArea, parent`size, parent`sectors
      ensures Valid()
      ensures nodes ==
        old(nodes)[parent.no as nat :=
          DirNode(parent.size, parent.sectors, old(nodes[parent.no].names) - {name})] - {ino as nat}
      ensures forall i :: i in nodes && i != parent.no as nat ==>
        Undisturbed(nodes[i], old(part.disk[..]), part.disk[..])
      ensures part.Taken() == old(part.Taken()) - old(Blocks(ino)) - (old(Blocks(parent.no)) - Blocks(parent.no))
      ensures part.open == old(part.open) && forall x :: x in old(part.open) ==> x.openCnts == old(x.openCnts)
    {
      hide Consistent, RecordAt, TailTaken, Holds, OnlyRecord, OwnMap, Owned, Footprint, Partition.Taken, Bitmap.Map,
        Linked, Dotted, HasTable, FreeCount, Bitmap.Valid, Partition.Cached, DirOk, FileOk, Key, Listed, HasName,
        Goal, LeadsTo, NodeOk, Partition.BlocksStored, Partition.InodesStored;
      ghost var k, nodes0 := parent.no, nodes;
      NameListed(nodes, k, name);
      var r;
      ghost var gone;
      r, gone := DropName(parent, ino);
      OnlyName(nodes0, k, name, gone);
      var ok := InodeRelease(ino);
      LinkedUnlink(nodes0, k, name, nodes[k]);
    }

    // -------------------------------------------------------------- create

    /** Some number that inode_sync can tell from the others is free. */
    ghost predicate LowFree()
      reads this
    {
      exists i: nat :: i < 0x100 && i !in nodes
    }

    /** In no consistent view of the partition as it is now is inode `j` in use. */
    ghost predicate Gone(j: nat)
      requires part.Shape()
      reads part.disk, part.blockMap.bits
    {
      forall ns :: Consistent(ns, part.disk[..], part.Taken(), Lo(), Hi(), part.tableLba) ==> j !in ns
    }

    /** file_create in an open directory; `slotFree` says whether the file table has room and `fdFree` whether the
        process's own table has. `made` is the new inode, whatever is returned. A new empty file comes with its name, on
        the lowest free inode number, and every other inode holds what it held. Without room in the file table nothing
        is changed; without room in the process's table the file is there and open, but -1 is returned. A directory
        whose direct blocks are full gets the entry behind a new table. Where no number below 256 is free, the record
        of an inode in use is overwritten. */
    method FileCreate(parent: Inode, name: seq<byte>, slotFree: bool, fdFree: bool)
      returns (r: Outcome<Inode>, ghost made: Outcome<Inode>)
      requires Valid() && parent in part.open && nodes[parent.no].DirNode?
      requires name != [] && 0 !in name && name !in nodes[parent.no].names
      modifies this`nodes, part`open, part.disk, part.blockMap.bits, part.blockArea, part.inodeMap.bits, part.inodeArea,
        parent`size, parent`sectors
      ensures r == if made.Done? && !fdFree then Null else made
      ensures made == Null <==> !AllSet(old(part.inodeMap.Map())) && !slotFree
      ensures made == Null ==> Valid() && nodes == old(nodes) && part.open == old(part.open)
      ensures made == Null ==> unchanged(part.disk) && unchanged(part.blockMap.bits)
      ensures made == Halted <==>
        || AllSet(old(part.inodeMap.Map()))
        || (slotFree && |name| > NAME_LEN)
        || (slotFree && FreeCount(old(part.blockMap.Map())) < BlocksNeeded(old(parent.sectors), old(part.disk[..])))
      ensures made.Done? ==>
        && fresh(made.value) && part.open == [made.value] + old(part.open)
        && made.value.openCnts == 1 && !made.value.writeDeny
        && made.value.no as nat !in old(nodes) && (forall i: nat :: i < made.value.no ==> i in old(nodes))
        && RecordPut(old(part.disk[..]), part.disk[..], part.tableLba, made.value.no, parent.no,
                     RecordOf(made.value.no, FileNode(0, seq(13, _ => 0))))
      ensures made.Done? && FullBefore(old(parent.sectors), old(part.disk[..]), DIR_BLOCKS) ==>
        && (forall i :: i in old(nodes) ==> Undisturbed(old(nodes)[i], old(part.disk[..]), part.disk[..]))
        && Tabled(Lo(), old(parent.sectors), old(part.disk[..]), old(part.Taken()), parent.sectors, part.disk[..],
                  part.Taken(), NewEntry(name, made.value.no, FT_REGULAR))
      ensures made.Done? && !FullBefore(old(parent.sectors), old(part.disk[..]), DIR_BLOCKS) ==>
        DirOk(Lo(), Hi(), old(nodes[parent.no].names)[name := Info(made.value.no, FT_REGULAR)], parent.sectors,
              parent.size, part.disk[..])
      ensures made.Done? && old(LowFree()) && !FullBefore(old(parent.sectors), old(part.disk[..]), DIR_BLOCKS) ==>
        && Valid()
        && nodes == old(nodes)[parent.no as nat :=
             DirNode(parent.size, parent.sectors,
                     old(nodes[parent.no].names)[name := Info(made.value.no, FT_REGULAR)])]
             [made.value.no as nat := FileNode(0, seq(13, _ => 0))]
        && (forall i :: i in old(nodes) && i != parent.no as nat ==>
              Undisturbed(nodes[i], old(part.disk[..]), part.disk[..]))
        && old(Blocks(parent.no)) <= Blocks(parent.no) && part.Taken() == old(part.Taken()) + Blocks(parent.no)
        && Blocks(made.value.no) == {}
      ensures made.Done? && !old(LowFree()) ==>
        made.value.no >= 0x100 && (made.value.no % 0x100) as nat in old(nodes) && Gone(made.value.no % 0x100)
    {
      hide Consistent, RecordAt, TailTaken, Holds, OnlyRecord, OwnMap, Owned, Footprint, Partition.Taken, Linked,
        RecordStored, Pack, Dotted, HasTable, FreeCount, Bitmap.Valid, DirOk, FileOk, Key, HasName, Goal, LeadsTo,
        NodeOk, FullBefore, BlocksNeeded, Added, Partition.BlocksStored, AreaHolds, RecordPut, Tabled, Undisturbed,
        LowFree, Gone, RecordOf, NeedsBlock, Partition.Cached;
      ghost var k := parent.no;
      OpenIs(parent);
      var ino;
      ghost var map0;
      ino, map0 := TakeNumber();
      if ino == Halted {
        return Halted, Halted;
      }
      var nd := new Inode.Init(ino.value);
      if !slotFree {
        UndoNumber(ino.value, map0);
        return Null, Null;
      }
      if |name| > NAME_LEN {
        return Halted, Halted;
      }
      var e := NewEntry(name, ino.value, FT_REGULAR);
      NewNameIs(nodes, k, e);
      DotsThere(Lo(), Hi(), nodes[k], part.disk[..]);
      r := FinishCreate(parent, nd, e, map0);
      made := r;
      if r.Done? && ino.value >= 0x100 {
        IsGone(old(part.disk[..]), ino.value, k, FileNode(0, seq(13, _ => 0)));
      }
      if r.Done? && !fdFree {
        r := Null;
      }
    }

    /** A file created where there is room, and closed once: it is there with its name and no longer open, the open
        inodes and their counts are as they were, and the partition is consistent. */
    method CreateAndClose(parent: Inode, name: seq<byte>) returns (ghost no: nat)
      requires Valid() && parent in part.open && nodes[parent.no].DirNode? && LowFree()
      requires 0 < |name| <= NAME_LEN && 0 !in name && name !in nodes[parent.no].names
      requires !FullBefore(parent.sectors, part.disk[..], DIR_BLOCKS)
      requires FreeCount(part.blockMap.Map()) >= BlocksNeeded(parent.sectors, part.disk[..])
      modifies this`nodes, part`open, part.disk, part.blockMap.bits, part.blockArea, part.inodeMap.bits, part.inodeArea,
        parent`size, parent`sectors
      ensures Valid() && no !in old(nodes) && no in nodes && nodes[no] == FileNode(0, seq(13, _ => 0))
      ensures parent.no as nat in nodes && nodes[parent.no].DirNode? && no < 0x100
      ensures nodes[parent.no].names == old(nodes[parent.no].names)[name := Info(no, FT_REGULAR)]
      ensures part.open == old(part.open)
    {
      hide Valid, FreeCount, BlocksNeeded, FullBefore, Blocks, Partition.Taken, RecordPut, Tabled, DirOk, Undisturbed,
        RecordOf, Gone;
      ghost var q := part.open;
      SomeNumber();
      NumberKnown(parent);
      ghost var made;
      var r;
      r, made := FileCreate(parent, name, true, true);
      no := r.value.no as nat;
      WithoutFirst(q, r.value);
      Close(r.value);
    }

    lemma NumberKnown(nd: Inode)
      requires Valid() && nd in part.open
      ensures nd.no as nat in nodes && forall i :: i in nodes ==> i < 0x100
    {
      hide RecordAt, Linked, TailTaken, Partition.Taken, Partition.BlocksStored, Partition.InodesStored,
        Partition.Cached, Bitmap.Map;
    }

    /** A number below 256 that is not in use has its bit clear. */
    lemma SomeNumber()
      requires Valid() && LowFree()
      ensures !AllSet(part.inodeMap.Map())
    {
      hide Consistent, RecordAt, Linked, TailTaken, Partition.Taken, Partition.BlocksStored, Partition.InodesStored,
        Partition.Cached, Bitmap.Map;
      var i: nat :| i < 0x100 && i !in nodes;
      assert !part.inodeMap.Map()[i];
    }

    /** inode_bitmap_alloc: the lowest number not in use, whose bit the disk has not got yet. */
    method TakeNumber() returns (r: Outcome<nat>, ghost map0: seq<bool>)
      requires Valid()
      modifies part.inodeMap.bits
      ensures r != Null && map0 == old(part.inodeMap.Map()) && (r == Halted <==> AllSet(map0))
      ensures part.Shape() && part.Cached() && Sound() && OpenKnown() && Linked(nodes) && part.BlocksStored()
      ensures r.Done? ==>
        && r.value < MAX_INODES && r.value !in nodes && (forall i: nat :: i < r.value ==> i in nodes)
        && Pending(map0, r.value) && AreaHolds(part.inodeArea[..], map0) && |map0| == MAX_INODES && !map0[r.value]
        && part.inodeMap.Map() == map0[r.value := true]
        && (forall i: nat :: i < MAX_INODES ==> (map0[i] <==> i in nodes))
        && (forall i: nat :: i < MAX_INODES ==> (part.inodeMap.Map()[i] <==> i in nodes || i == r.value))
      ensures r.Done? ==> (LowFree() <==> r.value < 0x100) && (r.value >= 0x100 ==> r.value % 0x100 in nodes)
    {
      hide Consistent, TailTaken, Linked, Partition.Taken, Partition.Cached, Partition.BlocksStored, AreaHolds, LowFree;
      map0 := part.inodeMap.Map();
      r := part.InodeAlloc();
      if r.Done? {
        LowIs(r.value);
      }
    }

    /** The lowest free number is below 256 exactly when some free number is. */
    lemma LowIs(no: nat)
      requires no !in nodes && forall i: nat :: i < no ==> i in nodes
      ensures LowFree() <==> no < 0x100
      ensures no >= 0x100 ==> no % 0x100 in nodes
    {
    }

    lemma IsGone(d0: seq<Sector>, no: word, k: nat, x: Node)
      requires part.Shape() && no >= 0x100
      requires RecordPut(d0, part.disk[..], part.tableLba, no, k, RecordOf(no, x))
      ensures Gone(no % 0x100)
    {
      hide NodeOk, RecordAt, Owns;
    }

    /** The rollback of file_create when the file table is full. */
    method UndoNumber(no: nat, ghost map0: seq<bool>)
      requires part.Shape() && part.Cached() && Sound() && OpenKnown() && Linked(nodes) && part.BlocksStored()
      requires AreaHolds(part.inodeArea[..], map0) && no < |map0| == MAX_INODES && !map0[no]
      requires part.inodeMap.Map() == map0[no := true]
      requires forall i: nat :: i < MAX_INODES ==> (map0[i] <==> i in nodes)
      modifies part.inodeMap.bits
      ensures Valid() && part.inodeMap.Map() == map0
    {
      hide Consistent, TailTaken, Linked, Partition.Taken, Partition.Cached, Partition.BlocksStored, AreaHolds;
      part.inodeMap.Set(no, false);
      assert part.inodeMap.Map() == map0;
    }

    /** file_create from the directory entry on. */
    method FinishCreate(parent: Inode, nd: Inode, e: Entry, ghost map0: seq<bool>) returns (r: Outcome<Inode>)
      requires part.Shape() && part.Cached() && Sound() && Linked(nodes) && OpenKnown()
      requires parent in part.open && nodes[parent.no].DirNode? && NewName(nodes[parent.no].names, e)
      requires |e.name| == NAME_LEN && e.fileType == FT_REGULAR
      requires nd !in part.open && nd.Valid() && nd.no == e.ino < MAX_INODES && nd.size == 0
      requires nd.sectors == seq(13, _ => 0)
      requires forall i: nat :: i < MAX_INODES ==> (part.inodeMap.Map()[i] <==> i in nodes || i == nd.no as nat)
      requires nd.no as nat !in nodes && !Dotted(Key(e)) && part.BlocksStored() && Pending(map0, nd.no)
      modifies this`nodes, part`open, part.disk, part.blockMap.bits, part.blockArea, part.inodeArea,
        parent`size, parent`sectors, nd`openCnts
      ensures r == Halted <==>
        FreeCount(old(part.blockMap.Map())) < BlocksNeeded(old(parent.sectors), old(part.disk[..]))
      ensures r != Null && (r.Done? ==> r.value == nd)
      ensures r.Done? ==>
        && part.open == [nd] + old(part.open) && nd.openCnts == 1
        && RecordPut(old(part.disk[..]), part.disk[..], part.tableLba, nd.no, parent.no,
                     RecordOf(nd.no, FileNode(0, seq(13, _ => 0))))
      ensures r.Done? && FullBefore(old(parent.sectors), old(part.disk[..]), DIR_BLOCKS) ==>
        && (forall i :: i in old(nodes) ==> Undisturbed(old(nodes)[i], old(part.disk[..]), part.disk[..]))
        && Tabled(Lo(), old(parent.sectors), old(part.disk[..]), old(part.Taken()), parent.sectors, part.disk[..],
                  part.Taken(), e)
      ensures r.Done? && !FullBefore(old(parent.sectors), old(part.disk[..]), DIR_BLOCKS) ==>
        DirOk(Lo(), Hi(), old(nodes[parent.no].names)[Key(e) := Info(e.ino, e.fileType)], parent.sectors, parent.size,
              part.disk[..])
      ensures r.Done? && nd.no < 0x100 && !FullBefore(old(parent.sectors), old(part.disk[..]), DIR_BLOCKS) ==>
        && Valid()
        && nodes == old(nodes)[parent.no as nat :=
             DirNode(parent.size, parent.sectors,
                     old(nodes[parent.no].names)[Key(e) := Info(e.ino, e.fileType)])]
             [nd.no as nat := FileNode(0, seq(13, _ => 0))]
        && (forall i :: i in old(nodes) && i != parent.no as nat ==>
              Undisturbed(nodes[i], old(part.disk[..]), part.disk[..]))
        && old(Blocks(parent.no)) <= Blocks(parent.no) && part.Taken() == old(part.Taken()) + Blocks(parent.no)
        && Blocks(nd.no) == {}
    {
      hide Consistent, RecordAt, TailTaken, Holds, OnlyRecord, OwnMap, Owned, Footprint, Partition.Taken, Linked,
        Dotted, FreeCount, Bitmap.Valid, DirOk, FileOk, Key, FullBefore, BlocksNeeded, Partition.Cached,
        Partition.BlocksStored, Partition.InodesStored, Tabled, Undisturbed, RecordPut, NodeOk;
      ghost var k, nodes0, d0, taken0 := parent.no, nodes, part.disk[..], part.Taken();
      ghost var s0, full := parent.sectors, FullBefore(parent.sectors, part.disk[..], DIR_BLOCKS);
      assert taken0 - {} == taken0 && taken0 + {} == taken0;
      HasRoot(nodes, d0, taken0, Lo(), Hi(), part.tableLba);
      var placed := AddName(parent, e, {});
      if !placed.Done? {
        return Halted;
      }
      assert part.Taken() - {} == part.Taken();
      ghost var nodes1, d1 := nodes, part.disk[..];
      StoreFile(nd);
      TwoRecords(d0, d1, part.disk[..], part.tableLba, Lo(), k, parent.Pure(), nd.no, nd.Pure());
      if full {
        TabledKept(part, s0, d0, taken0, parent.sectors, d1, part.disk[..], e);
        TabledApart(nodes0, d0, taken0, {}, Lo(), Hi(), part.tableLba, s0, parent.sectors, part.disk[..], part.Taken(),
                    e);
      } else {
        StillDir(Lo(), Hi(), nodes1[k], d1, part.disk[..]);
        if nd.no < 0x100 {
          LinkedCreate(nodes0, k, Key(e), nd.no, FT_REGULAR, nodes1[k], nodes[nd.no]);
          UndisturbedElse(nodes0, nodes1, nodes, k, nd.no, d0, d1, part.disk[..]);
          StillOwned(nodes1[k], d1, part.disk[..]);
        }
      }
      SyncInodeBit(nd.no, map0);
      r := Done(nd);
    }

    /** The disk has the inode map but for the bit of inode `no`. */
    ghost predicate Pending(map0: seq<bool>, no: nat)
      requires part.Shape()
      reads part.inodeMap.bits, part.inodeArea
    {
      AreaHolds(part.inodeArea[..], map0) && OneBit(map0, part.inodeMap.Map(), no)
    }

    /** bitmap_sync of the inode map, once everything else is there. */
    method SyncInodeBit(no: word, ghost map0: seq<bool>)
      requires part.Shape() && Pending(map0, no) && no < MAX_INODES
      modifies part.inodeArea
      ensures part.InodesStored()
      ensures old(part.Cached() && Sound() && OpenKnown() && BitsKnown() && Linked(nodes) && part.BlocksStored()) ==>
        Valid()
    {
      hide Consistent, TailTaken, Linked, Partition.Taken, Partition.Cached, Partition.BlocksStored,
        Partition.InodesStored, Bitmap.Map, Bitmap.Valid;
      part.BitmapSync(no, INODE_BITMAP, map0);
    }

    /** As Sound, when the blocks in `loose` are taken but nobody's yet. */
    ghost predicate SoundBut(loose: set<nat>)
      reads this, part.disk, part.blockMap.bits
      requires part.Shape()
    {
      && Consistent(nodes, part.disk[..], part.Taken() - loose, Lo(), Hi(), part.tableLba)
      && TailTaken(part.dataLba, part.dataCnt, part.blockMap.bytesLen, part.Taken() - loose)
      && loose <= part.Taken()
    }

    /** sync_dir_entry and inode_sync on the partition: the directory has one name more, and a block if it needed
        one; or the entry is behind a new table, and nothing else holds anything but what it held. */
    method AddName(parent: Inode, e: Entry, ghost loose: set<nat>) returns (r: Outcome<bool>)
      requires part.Shape() && part.Cached() && SoundBut(loose) && OpenKnown()
      requires parent in part.open && nodes[parent.no].DirNode? && NewName(nodes[parent.no].names, e)
      requires |e.name| == NAME_LEN && e.fileType != 0
      modifies this`nodes, part.disk, part.blockMap.bits, part.blockArea, parent`size, parent`sectors
      ensures r != Null && (r.Done? && old(part.BlocksStored()) ==> part.BlocksStored())
      ensures r == Halted <==>
        FreeCount(old(part.blockMap.Map())) < BlocksNeeded(old(parent.sectors), old(part.disk[..]))
      ensures r.Done? ==>
        && part.Cached() && OpenKnown() && parent.size == old(parent.size) + ENTRY_SIZE
        && OnlyRecord(old(part.disk[..]), part.disk[..], part.tableLba, Lo(), parent.no, parent.Pure())
        && (forall i :: i in nodes && i != parent.no as nat ==>
              Undisturbed(nodes[i], old(part.disk[..]), part.disk[..]))
        && (forall b :: b in loose && Lo() <= b < Hi() ==> part.disk[b] == old(part.disk[b]))
      ensures r.Done? && FullBefore(old(parent.sectors), old(part.disk[..]), DIR_BLOCKS) ==>
        && nodes == old(nodes) && Undisturbed(nodes[parent.no], old(part.disk[..]), part.disk[..])
        && Tabled(Lo(), old(parent.sectors), old(part.disk[..]), old(part.Taken()), parent.sectors, part.disk[..],
                  part.Taken(), e)
      ensures r.Done? && !FullBefore(old(parent.sectors), old(part.disk[..]), DIR_BLOCKS) ==>
        && SoundBut(loose)
        && nodes == old(nodes)[parent.no as nat :=
             DirNode(parent.size, parent.sectors,
                     old(nodes[parent.no].names)[Key(e) := Info(e.ino, e.fileType)])]
        && NodeOk(Lo(), Hi(), nodes[parent.no], part.disk[..])
        && old(Blocks(parent.no)) <= Blocks(parent.no) && Blocks(parent.no) !! loose
        && part.Taken() == old(part.Taken()) + Blocks(parent.no)
    {
      hide Consistent, RecordAt, TailTaken, Holds, OnlyRecord, OwnMap, Owned, Footprint, Partition.Taken, Dotted,
        FreeCount, Bitmap.Valid, DirOk, FileOk, Key, FullBefore, BlocksNeeded, Added, NewName, Undisturbed,
        Partition.BlocksStored, Partition.InodesStored, Tabled;
      ghost var k, m, d0, taken0 := parent.no, nodes[parent.no].names, part.disk[..], part.Taken() - loose;
      ghost var s0 := parent.sectors;
      OpenNode(part, nodes, parent, taken0);
      assert taken0 + loose == part.Taken();
      assert Footprint(parent.sectors, part.disk[..]) <= part.Taken();
      TailKept(part.dataLba, part.dataCnt, part.blockMap.bytesLen, taken0, part.Taken());
      DirReady(part, parent, m);
      ghost var b;
      r, b := AddEntry(part, parent, e, m);
      if r.Done? {
        if FullBefore(s0, d0, DIR_BLOCKS) {
          TabledApart(nodes, d0, taken0, loose, Lo(), Hi(), part.tableLba, s0, parent.sectors, part.disk[..],
                      part.Taken(), e);
        } else {
          ghost var x := DirNode(parent.size, parent.sectors, m[Key(e) := Info(e.ino, e.fileType)]);
          AddedSound(part, nodes, d0, taken0, loose, k, x, part.disk[..], part.Taken(), b);
          nodes := nodes[k as nat := x];
        }
      }
    }

    /** The end of file_create: the new inode is synced and put among the open ones. */
    method StoreFile(nd: Inode)
      requires part.Shape() && part.Cached() && OpenKnown()
      requires nd !in part.open && nd.Valid() && nd.no < MAX_INODES && nd.size == 0 && nd.sectors == seq(13, _ => 0)
      requires nd.no as nat !in nodes
      modifies this`nodes, part`open, part.disk, nd`openCnts
      ensures part.open == [nd] + old(part.open) && nd.openCnts == 1
      ensures OnlyRecord(old(part.disk[..]), part.disk[..], part.tableLba, Lo(), nd.no % 0x100, nd.Pure())
      ensures forall b :: Lo() <= b < part.disk.Length ==> part.disk[b] == old(part.disk[b])
      ensures nd.no < 0x100 && old(Sound()) ==>
        && part.Cached() && Sound() && OpenKnown()
        && nodes == old(nodes)[nd.no as nat := FileNode(0, seq(13, _ => 0))] && Blocks(nd.no) == {}
        && (forall i :: i in old(nodes) ==> Undisturbed(nodes[i], old(part.disk[..]), part.disk[..]))
    {
      hide Consistent, RecordAt, TailTaken, Holds, OnlyRecord, OwnMap, Owned, Footprint, RecordStored, Pack, NodeOk,
        Undisturbed, Partition.Taken, Partition.BlocksStored, Partition.InodesStored, Partition.AreCached;
      ghost var d2 := part.disk[..];
      ghost var sound := Sound();
      NewRecord(nd);
      if nd.no < 0x100 && sound {
        EmptyFile(nodes, d2, part.Taken(), Lo(), Hi(), part.tableLba, nd.no, part.disk[..]);
        nodes := nodes[nd.no as nat := FileNode(0, seq(13, _ => 0))];
      }
      ghost var q := part.open;
      part.open := [nd] + part.open;
      nd.openCnts := 1;
      if nd.no < 0x100 {
        CachedPushed(nd, q);
      }
    }

    /** inode_sync of an inode that is not open yet and whose number no open one has. */
    method NewRecord(nd: Inode)
      requires part.Shape() && part.Cached() && OpenKnown()
      requires nd !in part.open && nd.Valid() && nd.no < MAX_INODES && nd.no as nat !in nodes
      modifies part.disk
      ensures OnlyRecord(old(part.disk[..]), part.disk[..], part.tableLba, Lo(), nd.no % 0x100, nd.Pure())
      ensures forall b :: Lo() <= b < part.disk.Length ==> part.disk[b] == old(part.disk[b])
      ensures nd.no < 0x100 ==>
        && RecordStored(old(part.disk[..]), part.disk[..], part.tableLba, nd.no, Pack(nd.Pure()))
        && part.Cached() && RecordAt(part.disk[..], part.tableLba, nd.no) == nd.Pure()
        && forall z :: z in part.open ==> z.no != nd.no
    {
      hide RecordAt, RecordStored, OnlyRecord, Pack;
      ghost var d := part.disk[..];
      var ok := part.InodeSync(nd);
      StoredOnly(d, d, part.disk[..], part.tableLba, Lo(), nd.no % 0x100, nd.Pure());
      if nd.no < 0x100 {
        forall z | z in part.open ensures z.no != nd.no && RecordAt(part.disk[..], part.tableLba, z.no) == z.Pure() {
          OtherRecord(d, part.disk[..], part.tableLba, Lo(), nd.no, nd.Pure(), z.no);
        }
        ThisRecord(d, part.disk[..], part.tableLba, Lo(), nd.no, nd.Pure());
      }
    }

    lemma CachedPushed(nd: Inode, q: seq<Inode>)
      requires part.Shape() && part.AreCached(q) && nd.Valid() && nd.no < MAX_INODES
      requires RecordAt(part.disk[..], part.tableLba, nd.no) == nd.Pure()
      requires forall z :: z in q ==> z != nd && z.no != nd.no
      ensures part.AreCached([nd] + q)
    {
      hide RecordAt;
    }

    // -------------------------------------------------------------- mkdir

    /** The parent has one name more, which leads to a new directory on block `lba`; nobody else is disturbed, and what
        is taken now is what was, and the blocks of the two. */
    ghost predicate DirMade(nodes0: map<nat, Node>, d0: seq<Sector>, taken0: set<nat>, parent: Inode, name: seq<byte>,
                            no: word, lba: word)
      requires part.Shape()
      reads this, parent, part.disk, part.blockMap.bits
    {
      && IsNewDir(no, parent.no) && Blocks(no) == {lba as nat}
      && parent.no as nat in nodes0 && nodes0[parent.no].DirNode?
      && nodes == nodes0[parent.no as nat :=
           DirNode(parent.size, parent.sectors, nodes0[parent.no].names[name := Info(no, FT_DIRECTORY)])]
           [no as nat := nodes[no]]
      && (forall i :: i in nodes0 && i != parent.no as nat ==> Undisturbed(nodes[i], d0, part.disk[..]))
      && Owned(nodes0[parent.no], d0) <= Blocks(parent.no) && lba !in Blocks(parent.no)
      && part.Taken() == taken0 + Blocks(parent.no) + Blocks(no)
    }

    lemma MadeFrom(nodes0: map<nat, Node>, d0: seq<Sector>, d1: seq<Sector>, taken0: set<nat>, parent: Inode,
                   name: seq<byte>, no: word, lba: word)
      requires part.Shape() && (forall i :: i in nodes0 ==> Undisturbed(nodes0[i], d0, d1)) && no as nat !in nodes0
      requires DirMade(nodes0, d1, taken0 + {lba as nat}, parent, name, no, lba)
      ensures DirMade(nodes0, d0, taken0, parent, name, no, lba)
    {
      hide IsNewDir, Holds, Owned, Partition.Taken;
      forall i | i in nodes0 && i != parent.no as nat ensures Undisturbed(nodes[i], d0, part.disk[..]) {
        assert nodes[i] == nodes0[i];
      }
    }

    /** sys_mkdir of a new name in an open directory. A directory of its own with the two dot entries comes with the
        name, on block `lba` that was free; every other inode holds what it held. A directory whose direct blocks are
        full gets the entry behind a new table. Where no number below 256 is free, the record of an inode in use is
        overwritten. */
    method Mkdir(parent: Inode, name: seq<byte>) returns (r: Outcome<bool>, ghost no: word, ghost lba: word)
      requires Valid() && parent in part.open && nodes[parent.no].DirNode?
      requires name != [] && 0 !in name && name !in nodes[parent.no].names
      modifies this`nodes, part.disk, part.blockMap.bits, part.blockArea, part.inodeMap.bits, part.inodeArea,
        parent`size, parent`sectors
      ensures r == Halted <==>
        || AllSet(old(part.inodeMap.Map())) || |name| > NAME_LEN
        || FreeCount(old(part.blockMap.Map())) < 1 + BlocksNeeded(old(parent.sectors), old(part.disk[..]))
      ensures r != Null
      ensures r.Done? ==>
        && no as nat !in old(nodes) && (forall i: nat :: i < no ==> i in old(nodes))
        && Lo() < lba < Hi() && lba !in old(part.Taken()) && HasDots(part.disk[lba], no, parent.no)
        && RecordPut(old(part.disk[..]), part.disk[..], part.tableLba, no, parent.no,
                     RecordOf(no, NewDir(no, lba, parent.no)))
      ensures r.Done? && FullBefore(old(parent.sectors), old(part.disk[..]), DIR_BLOCKS) ==>
        && (forall i :: i in old(nodes) ==> Undisturbed(old(nodes)[i], old(part.disk[..]), part.disk[..]))
        && lba < |old(part.disk[..])|
        && Tabled(Lo(), old(parent.sectors), old(part.disk[..])[lba := DotsSector(no, parent.no)],
                  old(part.Taken()) + {lba as nat}, parent.sectors, part.disk[..], part.Taken(),
                  NewEntry(name, no, FT_DIRECTORY))
      ensures r.Done? && !FullBefore(old(parent.sectors), old(part.disk[..]), DIR_BLOCKS) ==>
        DirOk(Lo(), Hi(), old(nodes[parent.no].names)[name := Info(no, FT_DIRECTORY)], parent.sectors, parent.size,
              part.disk[..])
      ensures r.Done? && old(LowFree()) && !FullBefore(old(parent.sectors), old(part.disk[..]), DIR_BLOCKS) ==>
        Valid() && DirMade(old(nodes), old(part.disk[..]), old(part.Taken()), parent, name, no, lba)
      ensures r.Done? && !old(LowFree()) ==> no >= 0x100 && (no % 0x100) as nat in old(nodes) && Gone(no % 0x100)
    {
      hide Consistent, RecordAt, TailTaken, Holds, OwnMap, Owned, Footprint, Partition.Taken, Linked, FreeCount,
        Bitmap.Valid, DirOk, FileOk, Key, FullBefore, BlocksNeeded, NodeOk, Partition.Cached, NewName, DotsSector,
        Partition.BlocksStored, AreaHolds, SoundBut, Undisturbed, RecordPut, Tabled, LowFree, Gone, IsNewDir, NewDir,
        RecordOf, NeedsBlock, Pending, OpenKnown, HasDots, DirMade;
      ghost var k, nodes0, d0, taken0, map0 := parent.no, nodes, part.disk[..], part.Taken(), part.inodeMap.Map();
      ghost var full := FullBefore(parent.sectors, d0, DIR_BLOCKS);
      OpenIs(parent);
      HasRoot(nodes, d0, part.Taken(), Lo(), Hi(), part.tableLba);
      DotsThere(Lo(), Hi(), nodes[k], d0);
      no, lba := 0, 0;
      var ino;
      ino, map0 := TakeNumber();
      if ino == Halted {
        return Halted, 0, 0;
      }
      no := ino.value;
      var block := TakeDirBlock(parent, ino.value);
      if block == Halted {
        return Halted, no, 0;
      }
      lba := block.value;
      if |name| > NAME_LEN {
        return Halted, no, lba;
      }
      var e := NewEntry(name, ino.value, FT_DIRECTORY);
      NewNameIs(nodes, k, e);
      ghost var d1 := part.disk[..];
      r := FinishMkdir(parent, e, block.value, map0);
      if r.Done? {
        PutFrom(d0, d1, part.disk[..], part.tableLba, no, k, RecordOf(no, NewDir(no, lba, k)));
        UndisturbedTwice(nodes0, d0, d1, part.disk[..]);
        if no < 0x100 && !full {
          MadeFrom(nodes0, d0, d1, taken0, parent, name, no, lba);
        }
        if no >= 0x100 {
          IsGone(d0, no, k, NewDir(no, lba, k));
        }
      }
    }

    /** sys_mkdir from the directory entry on. */
    method FinishMkdir(parent: Inode, e: Entry, lba: word, ghost map0: seq<bool>) returns (r: Outcome<bool>)
      requires part.Shape() && part.Cached() && SoundBut({lba as nat}) && Linked(nodes) && OpenKnown()
      requires parent in part.open && nodes[parent.no].DirNode? && NewName(nodes[parent.no].names, e)
      requires |e.name| == NAME_LEN && e.fileType == FT_DIRECTORY
      requires Lo() <= lba < Hi() && HasDots(part.disk[lba], e.ino, parent.no)
      requires forall i: nat :: i < MAX_INODES ==> (part.inodeMap.Map()[i] <==> i in nodes || i == e.ino as nat)
      requires e.ino as nat !in nodes && e.ino != 0 && e.ino < MAX_INODES && !Dotted(Key(e))
      requires part.BlocksStored() && Pending(map0, e.ino)
      modifies this`nodes, part.disk, part.blockMap.bits, part.blockArea, part.inodeArea, parent`size, parent`sectors
      ensures r == Halted <==>
        FreeCount(old(part.blockMap.Map())) < BlocksNeeded(old(parent.sectors), old(part.disk[..]))
      ensures r != Null
      ensures r.Done? ==>
        && HasDots(part.disk[lba], e.ino, parent.no)
        && RecordPut(old(part.disk[..]), part.disk[..], part.tableLba, e.ino, parent.no,
                     RecordOf(e.ino, NewDir(e.ino, lba, parent.no)))
      ensures r.Done? && FullBefore(old(parent.sectors), old(part.disk[..]), DIR_BLOCKS) ==>
        && (forall i :: i in old(nodes) ==> Undisturbed(old(nodes)[i], old(part.disk[..]), part.disk[..]))
        && Tabled(Lo(), old(parent.sectors), old(part.disk[..]), old(part.Taken()), parent.sectors, part.disk[..],
                  part.Taken(), e)
      ensures r.Done? && !FullBefore(old(parent.sectors), old(part.disk[..]), DIR_BLOCKS) ==>
        DirOk(Lo(), Hi(), old(nodes[parent.no].names)[Key(e) := Info(e.ino, e.fileType)], parent.sectors, parent.size,
              part.disk[..])
      ensures r.Done? && e.ino < 0x100 && !FullBefore(old(parent.sectors), old(part.disk[..]), DIR_BLOCKS) ==>
        && Valid() && DirMade(old(nodes), old(part.disk[..]), old(part.Taken()), parent, Key(e), e.ino, lba)
    {
      hide Consistent, TailTaken, OwnMap, Owned, Footprint, Partition.Taken, Linked, FreeCount, Bitmap.Valid, DirOk,
        Key, FullBefore, BlocksNeeded, Partition.Cached, DotsSector, Partition.BlocksStored, Partition.InodesStored,
        Undisturbed, RecordPut, Tabled, SoundBut;
      ghost var nodes0, k, room := nodes, parent.no, !FullBefore(parent.sectors, part.disk[..], DIR_BLOCKS);
      r := PutDir(parent, e, lba);
      if r.Done? {
        if room && e.ino < 0x100 {
          OnlyDots(nodes[e.ino]);
          LinkedCreate(nodes0, k, Key(e), e.ino, FT_DIRECTORY, nodes[k], nodes[e.ino]);
        }
        SyncInodeBit(e.ino, map0);
      }
    }

    /** The directory entry and the new inode of sys_mkdir. */
    method PutDir(parent: Inode, e: Entry, lba: word) returns (r: Outcome<bool>)
      requires part.Shape() && part.Cached() && SoundBut({lba as nat}) && OpenKnown()
      requires parent in part.open && nodes[parent.no].DirNode? && NewName(nodes[parent.no].names, e)
      requires |e.name| == NAME_LEN && e.fileType == FT_DIRECTORY
      requires Lo() <= lba < Hi() && HasDots(part.disk[lba], e.ino, parent.no)
      requires e.ino as nat !in nodes && e.ino < MAX_INODES
      modifies this`nodes, part.disk, part.blockMap.bits, part.blockArea, parent`size, parent`sectors
      ensures r == Halted <==>
        FreeCount(old(part.blockMap.Map())) < BlocksNeeded(old(parent.sectors), old(part.disk[..]))
      ensures r != Null && (r.Done? && old(part.BlocksStored()) ==> part.BlocksStored())
      ensures r.Done? ==>
        && HasDots(part.disk[lba], e.ino, parent.no)
        && RecordPut(old(part.disk[..]), part.disk[..], part.tableLba, e.ino, parent.no,
                     RecordOf(e.ino, NewDir(e.ino, lba, parent.no)))
      ensures r.Done? && FullBefore(old(parent.sectors), old(part.disk[..]), DIR_BLOCKS) ==>
        && (forall i :: i in old(nodes) ==> Undisturbed(old(nodes)[i], old(part.disk[..]), part.disk[..]))
        && Tabled(Lo(), old(parent.sectors), old(part.disk[..]), old(part.Taken()), parent.sectors, part.disk[..],
                  part.Taken(), e)
      ensures r.Done? && !FullBefore(old(parent.sectors), old(part.disk[..]), DIR_BLOCKS) ==>
        DirOk(Lo(), Hi(), old(nodes[parent.no].names)[Key(e) := Info(e.ino, e.fileType)], parent.sectors, parent.size,
              part.disk[..])
      ensures r.Done? && e.ino < 0x100 && !FullBefore(old(parent.sectors), old(part.disk[..]), DIR_BLOCKS) ==>
        && part.Cached() && Sound() && OpenKnown()
        && DirMade(old(nodes), old(part.disk[..]), old(part.Taken()), parent, Key(e), e.ino, lba)
    {
      hide Consistent, RecordAt, TailTaken, Holds, OwnMap, Owned, Footprint, Partition.Taken, Linked, FreeCount,
        Bitmap.Valid, DirOk, FileOk, Key, FullBefore, BlocksNeeded, NodeOk, Partition.Cached, DotsSector, Dotted,
        Partition.BlocksStored, Partition.InodesStored, Undisturbed, RecordPut, Tabled, OnlyRecord;
      ghost var k, nodes0, d0, taken0 := parent.no, nodes, part.disk[..], part.Taken() - {lba as nat};
      ghost var s0, full := parent.sectors, FullBefore(parent.sectors, part.disk[..], DIR_BLOCKS);
      assert taken0 + {lba as nat} == part.Taken();
      r := AddName(parent, e, {lba as nat});
      if r.Done? {
        ghost var nodes1, d1 := nodes, part.disk[..];
        ghost var x := NewDir(e.ino, lba, parent.no);
        StoreDir(e.ino, lba, parent.no);
        TwoRecords(d0, d1, part.disk[..], part.tableLba, Lo(), k, parent.Pure(), e.ino, RecordOf(e.ino, x));
        if full {
          TabledKept(part, s0, d0, taken0 + {lba as nat}, parent.sectors, d1, part.disk[..], e);
          TabledApart(nodes0, d0, taken0, {lba as nat}, Lo(), Hi(), part.tableLba, s0, parent.sectors, part.disk[..],
                      part.Taken(), e);
        } else {
          StillDir(Lo(), Hi(), nodes1[k], d1, part.disk[..]);
          if e.ino < 0x100 {
            UndisturbedElse(nodes0, nodes1, nodes, k, e.ino, d0, d1, part.disk[..]);
            StillOwned(nodes1[k], d1, part.disk[..]);
          }
        }
      }
    }

    /** Inode `no` is a directory with one block that holds just the dot entries. */
    ghost predicate IsNewDir(no: word, parentNo: word)
      reads this, part.disk
    {
      && no as nat in nodes && nodes[no].DirNode? && nodes[no].size == 2 * ENTRY_SIZE
      && nodes[no].names == map[DOT := Info(no, FT_DIRECTORY), DOT_DOT := Info(parentNo, FT_DIRECTORY)]
      && |Blocks(no)| == 1
    }

    /** The block of a new directory, with its dot entries written to it. */
    method NewDirBlock(no: word, parentNo: word) returns (r: Outcome<word>)
      requires part.Shape() && part.Cached() && Sound()
      modifies part.disk, part.blockMap.bits, part.blockArea
      ensures r != Null && (r == Halted <==> FreeCount(old(part.blockMap.Map())) == 0)
      ensures r.Done? && old(part.BlocksStored()) ==> part.BlocksStored()
      ensures r.Done? ==>
        && part.Cached() && SoundBut({r.value as nat}) && Lo() < r.value < Hi()
        && HasDots(part.disk[r.value], no, parentNo)
        && r.value !in old(part.Taken()) && part.Taken() == old(part.Taken()) + {r.value as nat}
        && (forall i :: i in nodes ==> Undisturbed(nodes[i], old(part.disk[..]), part.disk[..]))
        && (forall b :: 0 <= b < part.disk.Length && b != r.value as nat ==> part.disk[b] == old(part.disk[b]))
        && (forall m :: 0 <= m < MAX_INODES ==>
              RecordAt(part.disk[..], part.tableLba, m) == old(RecordAt(part.disk[..], part.tableLba, m)))
        && FreeCount(part.blockMap.Map()) == FreeCount(old(part.blockMap.Map())) - 1
    {
      hide Consistent, RecordAt, Holds, OwnMap, Owned, Footprint, FreeCount, NodeOk, Undisturbed, Splice, EntryBytes,
        Partition.BlocksStored;
      ghost var d0, taken0 := part.disk[..], part.Taken();
      var lba := part.BlockTake();
      if lba == Halted {
        return Halted;
      }
      NewInside(Lo(), part.dataCnt, part.blockMap.bytesLen, taken0, lba.value);
      if lba.value - part.dataLba == 0 {
        return Halted;
      }
      var buf := Splice(Zeros(SECTOR_SIZE), 0, EntryBytes(NewEntry(DOT, no, FT_DIRECTORY)));
      var out: Sector := Splice(buf, ENTRY_SIZE, EntryBytes(NewEntry(DOT_DOT, parentNo, FT_DIRECTORY)));
      part.disk[lba.value] := out;
      assert part.disk[..] == d0[lba.value := out];
      assert part.Taken() - {lba.value} == taken0;
      LooseWritten(part, nodes, d0, taken0, lba.value, part.disk[..]);
      r := Done(lba.value);
    }

    /** The new block is none of the parent's. */
    method TakeDirBlock(parent: Inode, no: word) returns (r: Outcome<word>)
      requires part.Shape() && part.Cached() && Sound() && OpenKnown()
      requires parent in part.open && nodes[parent.no].DirNode?
      modifies part.disk, part.blockMap.bits, part.blockArea
      ensures r != Null && (r == Halted <==> FreeCount(old(part.blockMap.Map())) == 0)
      ensures r.Done? && old(part.BlocksStored()) ==> part.BlocksStored()
      ensures r.Done? ==>
        && part.Cached() && SoundBut({r.value as nat}) && Lo() < r.value < Hi()
        && HasDots(part.disk[r.value], no, parent.no)
        && part.disk[..] == old(part.disk[..])[r.value := DotsSector(no, parent.no)]
        && r.value !in old(part.Taken()) && part.Taken() == old(part.Taken()) + {r.value as nat}
        && (forall i :: i in nodes ==> Undisturbed(nodes[i], old(part.disk[..]), part.disk[..]))
        && (forall m :: 0 <= m < MAX_INODES ==>
              RecordAt(part.disk[..], part.tableLba, m) == old(RecordAt(part.disk[..], part.tableLba, m)))
        && FreeCount(part.blockMap.Map()) == FreeCount(old(part.blockMap.Map())) - 1
      ensures r.Done? ==>
        && Blocks(parent.no) == old(Blocks(parent.no))
        && BlocksNeeded(parent.sectors, part.disk[..]) == BlocksNeeded(parent.sectors, old(part.disk[..]))
        && (FullBefore(parent.sectors, part.disk[..], DIR_BLOCKS) <==>
            FullBefore(parent.sectors, old(part.disk[..]), DIR_BLOCKS))
    {
      hide Consistent, RecordAt, TailTaken, Holds, OwnMap, Owned, Footprint, Partition.Taken, FreeCount, DotsSector,
        Bitmap.Valid, Bitmap.Map, DirOk, FileOk, FullBefore, BlocksNeeded, NodeOk, Partition.Cached, Undisturbed,
        Partition.BlocksStored, AreaHolds, SoundBut;
      ghost var d0, x := part.disk[..], nodes[parent.no];
      OpenIs(parent);
      OwnedRange(Lo(), Hi(), x, d0);
      r := NewDirBlock(no, parent.no);
      if r.Done? {
        SameFirstSlots(Lo(), Hi(), nodes, parent.no, d0, part.disk[..]);
        assert part.disk[..] == d0[r.value := DotsSector(no, parent.no)];
        StillOwned(x, d0, part.disk[..]);
      }
    }

    /** The end of sys_mkdir: the new directory's inode is synced. */
    method StoreDir(no: word, lba: word, parentNo: word)
      requires part.Shape() && part.Cached() && OpenKnown()
      requires Lo() <= lba < Hi() && HasDots(part.disk[lba], no, parentNo) && no as nat !in nodes && no < MAX_INODES
      modifies this`nodes, part.disk
      ensures OnlyRecord(old(part.disk[..]), part.disk[..], part.tableLba, Lo(), no % 0x100,
                         RecordOf(no, NewDir(no, lba, parentNo)))
      ensures forall b :: Lo() <= b < part.disk.Length ==> part.disk[b] == old(part.disk[b])
      ensures no < 0x100 && old(SoundBut({lba as nat})) ==>
        && part.Cached() && Sound() && OpenKnown() && IsNewDir(no, parentNo) && Blocks(no) == {lba as nat}
        && nodes == old(nodes)[no as nat := nodes[no]]
        && (forall i :: i in old(nodes) ==> Undisturbed(nodes[i], old(part.disk[..]), part.disk[..]))
    {
      hide Consistent, RecordAt, TailTaken, Holds, OnlyRecord, OwnMap, Owned, Footprint, RecordStored, Pack, NodeOk,
        Undisturbed, Partition.Taken, HasDots, Partition.BlocksStored, Partition.InodesStored, Partition.AreCached;
      ghost var d2 := part.disk[..];
      ghost var sound := SoundBut({lba as nat});
      ghost var x := NewDir(no, lba, parentNo);
      var nd := new Inode.Init(no);
      nd.sectors := nd.sectors[0 := lba];
      nd.size := 2 * ENTRY_SIZE;
      assert nd.sectors == x.sectors;
      assert nd.Pure() == RecordOf(no, x);
      NewRecord(nd);
      if no < 0x100 && sound {
        NewDirStored(part, nodes, d2, no, lba, parentNo);
        TailKept(part.dataLba, part.dataCnt, part.blockMap.bytesLen, part.Taken() - {lba as nat}, part.Taken());
        nodes := nodes[no as nat := x];
      }
    }
  }

  // ---------------------------------------------------------------- create

  /** A new name takes a new block: the first slot that is not live is in a block that is not there. */
  ghost predicate NeedsBlock(s: seq<word>, d: seq<Sector>) {
    |s| == 13 && exists c :: 0 <= c < DIR_BLOCKS && s[c] == 0 && FullBefore(s, d, c)
  }

  /** How many blocks a new name takes. */
  ghost function BlocksNeeded(s: seq<word>, d: seq<Sector>): nat {
    if FullBefore(s, d, DIR_BLOCKS) then 2 else if NeedsBlock(s, d) then 1 else 0
  }

  /** The entry was placed and the directory's inode synced. */
  ghost predicate Added(s0: seq<word>, d0: seq<Sector>, taken0: set<nat>, s: seq<word>, d: seq<Sector>, taken: set<nat>,
                        b: nat, t: nat, lo: nat, no: nat, rec: Record) {
    && |s0| == |s| == 13 && b < DIR_BLOCKS && s[b] != 0 && OnlyRecord(d0, d, t, lo, no, rec)
    && (forall x :: lo <= x < |d| && x != s[b] ==> d[x] == d0[x])
    && if s0[b] != 0 then s == s0 && taken == taken0
       else s == s0[b := s[b]] && s[b] !in taken0 && taken == taken0 + {s[b]}
  }

  /** sync_dir_entry and inode_sync on an open directory, with what it means for the open inodes. */
  method AddEntry(p: Partition, parent: Inode, e: Entry, ghost m: map<seq<byte>, Info>)
    returns (r: Outcome<bool>, ghost b: nat)
    requires p.Shape() && p.Cached() && parent in p.open && parent.no < 0x100 && NewName(m, e)
    requires DirOk(p.dataLba, p.dataLba + p.dataCnt, m, parent.sectors, parent.size, p.disk[..])
    requires DirTaken(p, parent.sectors)
    requires |e.name| == NAME_LEN && e.fileType != 0 && parent.size < 0x1000_0000
    modifies p.disk, p.blockMap.bits, p.blockArea, parent`size, parent`sectors
    ensures r != Null && (r.Done? && old(p.BlocksStored()) ==> p.BlocksStored())
    ensures r == Halted <==> FreeCount(old(p.blockMap.Map())) < BlocksNeeded(old(parent.sectors), old(p.disk[..]))
    ensures r.Done? ==>
      && p.Cached() && parent.size == old(parent.size) + ENTRY_SIZE
      && OnlyRecord(old(p.disk[..]), p.disk[..], p.tableLba, p.dataLba, parent.no, parent.Pure())
    ensures r.Done? && FullBefore(old(parent.sectors), old(p.disk[..]), DIR_BLOCKS) ==>
      Tabled(p.dataLba, old(parent.sectors), old(p.disk[..]), old(p.Taken()), parent.sectors, p.disk[..], p.Taken(), e)
    ensures r.Done? && !FullBefore(old(parent.sectors), old(p.disk[..]), DIR_BLOCKS) ==>
      && DirOk(p.dataLba, p.dataLba + p.dataCnt, m[Key(e) := Info(e.ino, e.fileType)], parent.sectors, parent.size,
               p.disk[..])
      && Added(old(parent.sectors), old(p.disk[..]), old(p.Taken()), parent.sectors, p.disk[..], p.Taken(), b,
               p.tableLba, p.dataLba, parent.no, parent.Pure())
  {
    hide RecordAt, OnlyRecord, RecordStored, Footprint, Partition.Taken, Bitmap.Map, LiveSlotsOk, NamesOk,
      FreeSlotsOk, Dotted, FreeCount, Bitmap.Valid, Live, At, Key, RecordsCached, HasSlot, FullBefore, Elsewhere,
      Pack, Partition.BlocksStored, Partition.InodesStored, Tabled, Placed, DirOk, Added, DirTaken, BlocksNeeded;
    ghost var d0, before, s0, taken0, size0 := p.disk[..], OpenRecords(p), parent.sectors, p.Taken(), parent.size;
    ghost var lo, hi, i := p.dataLba, p.dataLba + p.dataCnt, 0;
    AllCached(p);
    NeedIs(s0, d0, FreeCount(p.blockMap.Map()));
    DirectOnly(lo, hi, m, s0, size0, d0);
    TakenBefore(p, s0);
    r, b, i := SyncDirEntry(p, parent, e);
    if !r.Done? {
      return;
    }
    ghost var s, d1 := parent.sectors, p.disk[..];
    if FullBefore(s0, d0, DIR_BLOCKS) {
      TabledShape(p, s0, d0, taken0, s, e);
    } else {
      PlacedShape(lo, s0, d0, taken0, s, d1, p.Taken(), b, i, e);
      PlacedKeeps(lo, hi, m, s0, size0, d0, taken0, s, d1, p.Taken(), b, i, e);
    }
    var ok := p.InodeSync(parent);
    StoredOnly(d0, d1, p.disk[..], p.tableLba, lo, parent.no, parent.Pure());
    if FullBefore(s0, d0, DIR_BLOCKS) {
      TabledSynced(lo, s0, d0, taken0, s, d1, p.disk[..], p.Taken(), e);
    } else {
      PlacedSynced(lo, hi, m[Key(e) := Info(e.ino, e.fileType)], s0, d0, taken0, s, parent.size, d1, p.disk[..],
                   p.Taken(), b, i, e, p.tableLba, parent.no, parent.Pure());
    }
    CachedAfter(p, parent, d0, before);
  }

  /** The blocks a new name takes are the ones sync_dir_entry halts without. */
  lemma NeedIs(s: seq<word>, d: seq<Sector>, free: nat)
    requires |s| == 13
    ensures free < BlocksNeeded(s, d) <==>
      || (free == 0 && exists c :: 0 <= c < DIR_BLOCKS && s[c] == 0 && FullBefore(s, d, c))
      || (free < 2 && FullBefore(s, d, DIR_BLOCKS))
  {
    hide Live;
    if c: nat :| c < DIR_BLOCKS && s[c] == 0 && FullBefore(s, d, c) {
      NotLive(s, d, c);
    }
  }

  lemma NotLive(s: seq<word>, d: seq<Sector>, c: nat)
    requires c < DIR_BLOCKS && |s| == 13 && s[c] == 0
    ensures !FullBefore(s, d, DIR_BLOCKS)
  {
    assert !Live(s, d, c, 0);
  }

  /** Both new blocks are data sectors. */
  lemma TabledShape(p: Partition, s0: seq<word>, d0: seq<Sector>, taken0: set<nat>, s: seq<word>, e: Entry)
    requires p.Shape() && Tabled(0, s0, d0, taken0, s, p.disk[..], p.Taken(), e)
    ensures |s0| == |s| == 13 && |d0| == p.disk.Length && p.dataLba <= s[12] < p.disk.Length
    ensures var d := p.disk[..]; Decode(d[s[12]])[0] >= p.dataLba && forall b :: 0 <= b < p.dataLba ==> d[b] == d0[b]
  {
    hide EntryBytes, Splice, Encode, Decode;
    assert s[12] as nat in p.Taken() && Decode(p.disk[s[12]])[0] as nat in p.Taken();
  }

  lemma PlacedShape(lo: nat, s0: seq<word>, d0: seq<Sector>, taken0: set<nat>, s: seq<word>, d: seq<Sector>,
                    taken: set<nat>, b: nat, i: nat, e: Entry)
    requires Placed(s0, d0, taken0, s, d, taken, b, i, e) && lo <= s[b] && lo <= |d0|
    ensures |s| == 13 && |d| == |d0| && forall x :: 0 <= x < lo ==> d[x] == d0[x]
  {
    hide FullBefore, Elsewhere, At, Live;
  }

  lemma PlacedSynced(lo: nat, hi: nat, m: map<seq<byte>, Info>, s0: seq<word>, d0: seq<Sector>, taken0: set<nat>,
                     s: seq<word>, size: nat, d1: seq<Sector>, d: seq<Sector>, taken: set<nat>, b: nat, i: nat,
                     e: Entry, t: nat, no: nat, rec: Record)
    requires DirOk(lo, hi, m, s, size, d1) && Placed(s0, d0, taken0, s, d1, taken, b, i, e) && lo <= s[b]
    requires OnlyRecord(d0, d, t, lo, no, rec) && |d| == |d1| && forall x :: lo <= x < |d| ==> d[x] == d1[x]
    ensures DirOk(lo, hi, m, s, size, d) && Added(s0, d0, taken0, s, d, taken, b, t, lo, no, rec)
  {
    hide LiveSlotsOk, NamesOk, FreeSlotsOk, FullBefore, Elsewhere, At, Live, OnlyRecord;
    DirFrame(lo, hi, m, s, size, d1, d);
  }

  lemma TabledSynced(lo: nat, s0: seq<word>, d0: seq<Sector>, taken0: set<nat>, s: seq<word>, d1: seq<Sector>,
                     d: seq<Sector>, taken: set<nat>, e: Entry)
    requires Tabled(0, s0, d0, taken0, s, d1, taken, e) && s[12] >= lo && Decode(d1[s[12]])[0] >= lo
    requires |d| == |d1| && forall b :: lo <= b < |d| ==> d[b] == d1[b]
    ensures Tabled(lo, s0, d0, taken0, s, d, taken, e)
  {
    hide EntryBytes, Splice, Encode, Decode;
  }

  /** A directory that takes a block owns one more. */
  lemma BlockGained(lo: nat, hi: nat, s0: seq<word>, d0: seq<Sector>, s: seq<word>, d: seq<Sector>, b: nat)
    requires DirBlocksOk(lo, hi, s0, d0) && DirBlocksOk(lo, hi, s, d) && b < DIR_BLOCKS && s[b] != 0
    requires if s0[b] != 0 then s == s0 else s == s0[b := s[b]]
    ensures Footprint(s, d) == Footprint(s0, d0) + {s[b] as nat}
  {
    if s0[b] != 0 {
      BlockLost(lo, hi, s0, d0, s, d, b);
      OwnBlock(lo, hi, s, d, b);
    } else {
      BlockLost(lo, hi, s, d, s0, d0, b);
      OwnBlock(lo, hi, s, d, b);
    }
  }

  /** A directory with a new name, in a partition where the blocks in `loose` are taken but nobody's yet. */
  lemma AddedNode(nodes: map<nat, Node>, d0: seq<Sector>, taken0: set<nat>, loose: set<nat>, lo: nat, hi: nat, t: nat,
                  k: word, x: Node, d: seq<Sector>, taken: set<nat>, b: nat)
    requires Consistent(nodes, d0, taken0, lo, hi, t) && k as nat in nodes && nodes[k].DirNode? && x.DirNode?
    requires NodeOk(lo, hi, x, d)
    requires loose !! taken0
    requires Added(nodes[k].sectors, d0, taken0 + loose, x.sectors, d, taken, b, t, lo, k, RecordOf(k, x))
    ensures Consistent(nodes[k as nat := x], d, taken - loose, lo, hi, t)
    ensures forall j :: j in nodes && j != k as nat ==> Undisturbed(nodes[j], d0, d)
    ensures Owned(nodes[k], d0) <= Owned(x, d) && Owned(x, d) !! loose && taken == taken0 + loose + Owned(x, d)
    ensures |d| == |d0| && |x.sectors| == 13 && x.sectors[b] as nat in Owned(x, d)
  {
    hide RecordAt, RecordOf, Footprint, LiveSlotsOk, NamesOk, FreeSlotsOk, FileOk;
    var s0 := nodes[k].sectors;
    assert NodeOk(lo, hi, nodes[k], d0);
    BlockGained(lo, hi, s0, d0, x.sectors, d, b);
    OwnedRange(lo, hi, x, d);
    OwnedTaken(nodes, d0, taken0, lo, hi, t, k);
    if s0[b] != 0 {
      OwnBlock(lo, hi, s0, d0, b);
      assert Owned(x, d) == Owned(nodes[k], d0);
    }
    assert taken - loose == taken0 + Owned(x, d);
    assert OwnMap(nodes, d0)[k as nat] == Owned(nodes[k], d0);
    OwnsMore(OwnMap(nodes, d0), taken0, lo, hi, k, Owned(x, d), taken - loose);
    NodeChanged(nodes, d0, taken0, lo, hi, t, k, x, d, taken - loose);
  }

  /** An open directory is ready for sync_dir_entry. */
  lemma DirReady(p: Partition, nd: Inode, m: map<seq<byte>, Info>)
    requires p.Shape() && DirOk(p.dataLba, p.dataLba + p.dataCnt, m, nd.sectors, nd.size, p.disk[..])
    requires Footprint(nd.sectors, p.disk[..]) <= p.Taken()
    requires TailTaken(p.dataLba, p.dataCnt, p.blockMap.bytesLen, p.Taken())
    ensures DirTaken(p, nd.sectors) && nd.size < 0x1000_0000
  {
    hide LiveSlotsOk, NamesOk, FreeSlotsOk, Footprint, TailTaken;
    DirSmall(p.dataLba, p.dataLba + p.dataCnt, m, nd.sectors, nd.size, p.disk[..]);
    DirFootprint(p.dataLba, p.dataLba + p.dataCnt, nd.sectors, p.disk[..]);
    forall c | 0 <= c < DIR_BLOCKS && nd.sectors[c] != 0 ensures nd.sectors[c] in p.Taken() {
      OwnBlock(p.dataLba, p.dataLba + p.dataCnt, nd.sectors, p.disk[..], c);
    }
  }

  lemma AddedSound(p: Partition, nodes: map<nat, Node>, d0: seq<Sector>, taken0: set<nat>, loose: set<nat>, k: word,
                   x: Node, d: seq<Sector>, taken: set<nat>, b: nat)
    requires p.Shape() && Consistent(nodes, d0, taken0, p.dataLba, p.dataLba + p.dataCnt, p.tableLba)
    requires TailTaken(p.dataLba, p.dataCnt, p.blockMap.bytesLen, taken0) && loose !! taken0
    requires k as nat in nodes && nodes[k].DirNode? && x.DirNode? && NodeOk(p.dataLba, p.dataLba + p.dataCnt, x, d)
    requires Added(nodes[k].sectors, d0, taken0 + loose, x.sectors, d, taken, b, p.tableLba, p.dataLba, k,
                   RecordOf(k, x))
    ensures Consistent(nodes[k as nat := x], d, taken - loose, p.dataLba, p.dataLba + p.dataCnt, p.tableLba)
    ensures TailTaken(p.dataLba, p.dataCnt, p.blockMap.bytesLen, taken - loose) && loose <= taken
    ensures forall j :: j in nodes && j != k as nat ==> Undisturbed(nodes[j], d0, d)
    ensures Owned(nodes[k], d0) <= Owned(x, d) && Owned(x, d) !! loose && taken == taken0 + loose + Owned(x, d)
    ensures |d| == |d0| && forall c :: c in loose && p.dataLba <= c < |d| ==> d[c] == d0[c]
  {
    hide Consistent, NodeOk, Owned, Undisturbed, OnlyRecord;
    AddedNode(nodes, d0, taken0, loose, p.dataLba, p.dataLba + p.dataCnt, p.tableLba, k, x, d, taken, b);
  }

  /** At the low eight bits of number `no` is the record `rec`; but for it and that of inode `k` all are as before. */
  ghost predicate RecordPut(d0: seq<Sector>, d: seq<Sector>, t: nat, no: word, k: nat, rec: Record) {
    && HasTable(d0, t) && HasTable(d, t) && RecordAt(d, t, no % 0x100) == rec
    && forall m: nat :: m < MAX_INODES && m != no % 0x100 && m != k ==> RecordAt(d, t, m) == RecordAt(d0, t, m)
  }

  lemma TwoRecords(d0: seq<Sector>, d1: seq<Sector>, d: seq<Sector>, t: nat, lo: nat, k: nat, first: Record, no: word,
                   rec: Record)
    requires OnlyRecord(d0, d1, t, lo, k, first) && OnlyRecord(d1, d, t, lo, no % 0x100, rec)
    ensures RecordPut(d0, d, t, no, k, rec)
  {
    hide RecordAt;
  }

  lemma PutFrom(d0: seq<Sector>, d1: seq<Sector>, d: seq<Sector>, t: nat, no: word, k: nat, rec: Record)
    requires HasTable(d0, t) && HasTable(d1, t) && RecordPut(d1, d, t, no, k, rec)
    requires forall m :: 0 <= m < MAX_INODES ==> RecordAt(d1, t, m) == RecordAt(d0, t, m)
    ensures RecordPut(d0, d, t, no, k, rec)
  {
    hide RecordAt;
  }

  lemma StillDir(lo: nat, hi: nat, x: Node, d: seq<Sector>, d': seq<Sector>)
    requires NodeOk(lo, hi, x, d) && x.DirNode? && |d'| == |d| && forall b :: lo <= b < |d| ==> d'[b] == d[b]
    ensures DirOk(lo, hi, x.names, x.sectors, x.size, d')
  {
    hide LiveSlotsOk, NamesOk, FreeSlotsOk;
    DirFrame(lo, hi, x.names, x.sectors, x.size, d, d');
  }

  /** What is written outside the data sectors is of no concern to a new table. */
  lemma TabledKept(p: Partition, s0: seq<word>, d0: seq<Sector>, taken0: set<nat>, s: seq<word>, d: seq<Sector>,
                   d': seq<Sector>, e: Entry)
    requires p.Shape() && Tabled(p.dataLba, s0, d0, taken0, s, d, p.Taken(), e)
    requires |d'| == |d| && forall b :: p.dataLba <= b < |d| ==> d'[b] == d[b]
    ensures Tabled(p.dataLba, s0, d0, taken0, s, d', p.Taken(), e)
  {
    hide EntryBytes, Splice, Encode, Decode;
    assert s[12] as nat in p.Taken() && Decode(d[s[12]])[0] as nat in p.Taken();
  }

  /** Blocks that were free belong to nobody. */
  lemma TabledApart(nodes: map<nat, Node>, d0: seq<Sector>, taken0: set<nat>, loose: set<nat>, lo: nat, hi: nat, t: nat,
                    s0: seq<word>, s: seq<word>, d: seq<Sector>, taken: set<nat>, e: Entry)
    requires Consistent(nodes, d0, taken0, lo, hi, t) && Tabled(lo, s0, d0, taken0 + loose, s, d, taken, e)
    ensures forall i :: i in nodes ==> Undisturbed(nodes[i], d0, d)
    ensures forall b :: b in loose && lo <= b < hi ==> d[b] == d0[b]
  {
    hide NodeOk, Owned, Holds, RecordAt, RecordOf, Decode, Encode, EntryBytes, Splice;
    var table, b := s[12], Decode(d[s[12]])[0];
    assert table !in taken0 + loose && b !in taken0 + loose;
    forall i | i in nodes ensures Undisturbed(nodes[i], d0, d) {
      OwnedTaken(nodes, d0, taken0, lo, hi, t, i);
      OwnedRange(lo, hi, nodes[i], d0);
      NodeFrame(lo, hi, nodes[i], d0, d);
    }
  }

  lemma ThisRecord(d0: seq<Sector>, d: seq<Sector>, t: nat, lo: nat, no: nat, rec: Record)
    requires OnlyRecord(d0, d, t, lo, no, rec)
    ensures RecordAt(d, t, no) == rec
  {
  }

  /** An inode number that is not in use makes a new entry new to its directory. */
  lemma NewNameIs(nodes: map<nat, Node>, k: nat, e: Entry)
    requires Linked(nodes) && k in nodes && nodes[k].DirNode? && Key(e) !in nodes[k].names && Key(e) != []
    requires e.ino as nat !in nodes
    ensures NewName(nodes[k].names, e)
  {
    hide Key;
    forall x | x in nodes[k].names && !Dotted(x) ensures nodes[k].names[x].ino != e.ino {
      assert HasName(nodes, k, x) && LeadsTo(nodes, Goal(nodes, k, x));
    }
  }

  lemma DotsThere(lo: nat, hi: nat, x: Node, d: seq<Sector>)
    requires NodeOk(lo, hi, x, d) && x.DirNode?
    ensures DOT in x.names && DOT_DOT in x.names && DirOk(lo, hi, x.names, x.sectors, x.size, d)
    ensures forall name :: name !in x.names ==> !Dotted(name)
  {
  }

  lemma HasRoot(nodes: map<nat, Node>, d: seq<Sector>, taken: set<nat>, lo: nat, hi: nat, t: nat)
    requires Consistent(nodes, d, taken, lo, hi, t)
    ensures 0 in nodes
  {
  }

  lemma OwnedTaken(nodes: map<nat, Node>, d: seq<Sector>, taken: set<nat>, lo: nat, hi: nat, t: nat, k: nat)
    requires Consistent(nodes, d, taken, lo, hi, t) && k in nodes
    ensures Owned(nodes[k], d) <= taken
  {
    hide RecordAt, RecordOf, Owned, NodeOk;
    var own := OwnMap(nodes, d);
    forall b | b in Owned(nodes[k], d) ensures b in taken {
      assert b in own[k] && OwnedBySome(own, b);
    }
  }

  /** An empty file on a number that was not in use. */
  lemma EmptyFile(nodes: map<nat, Node>, d0: seq<Sector>, taken: set<nat>, lo: nat, hi: nat, t: nat, no: word,
                  d: seq<Sector>)
    requires Consistent(nodes, d0, taken, lo, hi, t) && no as nat !in nodes && no < 0x100
    requires RecordStored(d0, d, t, no, Pack(RecordOf(no, FileNode(0, seq(13, _ => 0)))))
    ensures var x := FileNode(0, seq(13, _ => 0));
      && Consistent(nodes[no as nat := x], d, taken, lo, hi, t) && Owned(x, d) == {}
      && OnlyRecord(d0, d, t, lo, no, RecordOf(no, x))
    ensures forall j :: j in nodes ==> Undisturbed(nodes[j], d0, d)
  {
    hide RecordAt, RecordStored, Pack, Decode, DirOk;
    var x := FileNode(0, seq(13, _ => 0));
    StoredOnly(d0, d0, d, t, lo, no, RecordOf(no, x));
    hide OnlyRecord;
    assert Chain(x.sectors, d) == seq(MAX_BLOCKS, _ => 0);
    assert Owned(x, d) == {};
    OwnsMore(OwnMap(nodes, d0), taken, lo, hi, no, {}, taken);
    NodeChanged(nodes, d0, taken, lo, hi, t, no, x, d, taken);
  }

  // ---------------------------------------------------------------- unlink

  /** A name of no directory leads to a file, and not to the root. */
  lemma FileNamed(nodes: map<nat, Node>, k: nat, name: seq<byte>)
    requires Linked(nodes) && k in nodes && nodes[k].DirNode? && name in nodes[k].names
    requires nodes[k].names[name].fileType != FT_DIRECTORY
    ensures HasName(nodes, k, name) && Goal(nodes, k, name) == nodes[k].names[name]
    ensures Listed(nodes[k].names, nodes[k].names[name].ino)
    ensures var j := nodes[k].names[name].ino as nat; j != 0 && j != k && j in nodes && nodes[j].FileNode?
  {
    assert DotsOk(nodes[k]);
    assert HasName(nodes, k, name) && LeadsTo(nodes, Goal(nodes, k, name));
  }

  lemma NameListed(nodes: map<nat, Node>, k: nat, name: seq<byte>)
    requires HasName(nodes, k, name)
    ensures Listed(nodes[k].names, nodes[k].names[name].ino) && Goal(nodes, k, name) == nodes[k].names[name]
    ensures name in nodes[k].names
  {
  }

  lemma RootNotRemovable(nodes: map<nat, Node>, k: nat, name: seq<byte>)
    requires Linked(nodes) && k in nodes && nodes[k].DirNode? && name in nodes[k].names && nodes[k].names[name].ino == 0
    ensures nodes[k].names[name].fileType == FT_DIRECTORY
  {
    if nodes[k].names[name].fileType != FT_DIRECTORY {
      FileNamed(nodes, k, name);
    }
  }

  /** In a directory only one name leads to a given file. */
  lemma OnlyName(nodes: map<nat, Node>, k: nat, name: seq<byte>, other: seq<byte>)
    requires Linked(nodes) && HasName(nodes, k, name) && other in nodes[k].names && !Dotted(other)
    requires nodes[k].names[other].ino == nodes[k].names[name].ino
    ensures other == name
  {
    assert HasName(nodes, k, other);
    assert Goal(nodes, k, other).ino == Goal(nodes, k, name).ino;
  }

  /** delete_dir_entry on an open directory, with what it means for the open inodes. */
  method DropEntry(p: Partition, parent: Inode, ino: nat, ghost m: map<seq<byte>, Info>)
    returns (r: Outcome<bool>, ghost name: seq<byte>, ghost b: nat, ghost i: nat)
    requires p.Shape() && p.Cached() && parent in p.open && parent.no < 0x100 && Listed(m, ino)
    requires DirOk(p.dataLba, p.dataLba + p.dataCnt, m, parent.sectors, parent.size, p.disk[..])
    modifies p.disk, p.blockMap.bits, p.blockArea, parent`size, parent`sectors
    ensures r == Done(true) && p.Cached() && name in m && !Dotted(name) && m[name].ino == ino
    ensures old(p.BlocksStored()) ==> p.BlocksStored()
    ensures DirOk(p.dataLba, p.dataLba + p.dataCnt, m - {name}, parent.sectors, parent.size, p.disk[..])
    ensures Deleted(old(parent.sectors), old(p.disk[..]), old(p.Taken()), parent.sectors, p.disk[..], p.Taken(), b, i,
                    p.tableLba, p.dataLba, parent.no, parent.Pure())
  {
    hide RecordAt, OnlyRecord, Footprint, Partition.Taken, Bitmap.Map, Listed, DirOk, Dotted, HasTable, FreeCount,
      Bitmap.Valid, Live, At, Key, RecordsCached, HasSlot, LastIn, Partition.BlocksStored, Partition.InodesStored;
    ghost var d0, before := p.disk[..], OpenRecords(p);
    AllCached(p);
    r, b, i := DeleteName(p, parent, ino, m);
    name := Key(At(old(parent.sectors), d0, b, i));
    DirSectors(p.dataLba, p.dataLba + p.dataCnt, m - {name}, parent.sectors, parent.size, p.disk[..]);
    CachedAfter(p, parent, d0, before);
  }

  lemma DirSectors(lo: nat, hi: nat, m: map<seq<byte>, Info>, s: seq<word>, size: nat, d: seq<Sector>)
    requires DirOk(lo, hi, m, s, size, d)
    ensures |s| == 13
  {
  }

  lemma AllCached(p: Partition)
    requires p.Shape() && p.Cached()
    ensures RecordsCached(p.disk[..], p.tableLba, p.open, OpenRecords(p))
  {
    hide RecordAt;
  }

  /** A directory that loses a block owns one less. */
  lemma BlockLost(lo: nat, hi: nat, s0: seq<word>, d0: seq<Sector>, s: seq<word>, d: seq<Sector>, b: nat)
    requires DirBlocksOk(lo, hi, s0, d0) && DirBlocksOk(lo, hi, s, d) && b < DIR_BLOCKS && s0[b] != 0
    ensures s == s0[b := 0] ==> Footprint(s, d) == Footprint(s0, d0) - {s0[b] as nat}
    ensures s == s0 ==> Footprint(s, d) == Footprint(s0, d0)
  {
    DirFootprint(lo, hi, s0, d0);
    DirFootprint(lo, hi, s, d);
    hide Footprint;
    if s == s0[b := 0] {
      forall x ensures x in Footprint(s, d) <==> x in Footprint(s0, d0) && x != s0[b] {
        if x in Footprint(s0, d0) && x != s0[b] {
          var c :| 0 <= c < DIR_BLOCKS && s0[c] == x && x != 0;
          assert s[c] == x;
        }
        if x in Footprint(s, d) {
          var c :| 0 <= c < DIR_BLOCKS && s[c] == x && x != 0;
          assert s0[c] == x && c != b;
        }
      }
    }
  }

  lemma DeletedNode(nodes: map<nat, Node>, d0: seq<Sector>, taken0: set<nat>, lo: nat, hi: nat, t: nat, k: word,
                    x: Node, d: seq<Sector>, taken: set<nat>, b: nat, i: nat)
    requires Consistent(nodes, d0, taken0, lo, hi, t) && k as nat in nodes && nodes[k].DirNode? && x.DirNode?
    requires NodeOk(lo, hi, x, d)
    requires Deleted(nodes[k].sectors, d0, taken0, x.sectors, d, taken, b, i, t, lo, k, RecordOf(k, x))
    ensures Consistent(nodes[k as nat := x], d, taken, lo, hi, t)
    ensures forall j :: j in nodes && j != k as nat ==> Undisturbed(nodes[j], d0, d)
    ensures Owned(x, d) <= Owned(nodes[k], d0) && taken == taken0 - (Owned(nodes[k], d0) - Owned(x, d))
    ensures lo !in Owned(nodes[k], d0) - Owned(x, d)
    ensures forall c :: c in Owned(nodes[k], d0) ==> lo <= c < hi
  {
    hide RecordAt, RecordOf, Footprint, OnlyRecord, LiveSlotsOk, NamesOk, FreeSlotsOk, Live, FileOk;
    var s0 := nodes[k].sectors;
    assert NodeOk(lo, hi, nodes[k], d0);
    BlockLost(lo, hi, s0, d0, x.sectors, d, b);
    OwnedRange(lo, hi, nodes[k], d0);
    OwnBlock(lo, hi, s0, d0, b);
    assert OwnMap(nodes, d0)[k as nat] == Owned(nodes[k], d0);
    if b != 0 {
      NotRootBlock(nodes, d0, taken0, lo, hi, t, k, b);
    }
    OwnsFewer(OwnMap(nodes, d0), taken0, lo, hi, k, Owned(x, d), taken);
    NodeChanged(nodes, d0, taken0, lo, hi, t, k, x, d, taken);
  }

  lemma DeletedSound(p: Partition, nodes: map<nat, Node>, d0: seq<Sector>, taken0: set<nat>, k: word, x: Node, b: nat,
                     i: nat)
    requires p.Shape() && Consistent(nodes, d0, taken0, p.dataLba, p.dataLba + p.dataCnt, p.tableLba)
    requires TailTaken(p.dataLba, p.dataCnt, p.blockMap.bytesLen, taken0)
    requires k as nat in nodes && nodes[k].DirNode? && x.DirNode?
    requires NodeOk(p.dataLba, p.dataLba + p.dataCnt, x, p.disk[..])
    requires Deleted(nodes[k].sectors, d0, taken0, x.sectors, p.disk[..], p.Taken(), b, i, p.tableLba, p.dataLba, k,
                     RecordOf(k, x))
    ensures Consistent(nodes[k as nat := x], p.disk[..], p.Taken(), p.dataLba, p.dataLba + p.dataCnt, p.tableLba)
    ensures TailTaken(p.dataLba, p.dataCnt, p.blockMap.bytesLen, p.Taken())
    ensures forall j :: j in nodes && j != k as nat ==> Undisturbed(nodes[j], d0, p.disk[..])
    ensures var was, now := Owned(nodes[k], d0), Owned(x, p.disk[..]); now <= was && p.Taken() == taken0 - (was - now)
  {
    hide Consistent, NodeOk, Owned, Holds, Deleted, TailTaken, Partition.Taken, Partition.BlocksStored,
      Partition.InodesStored;
    DeletedNode(nodes, d0, taken0, p.dataLba, p.dataLba + p.dataCnt, p.tableLba, k, x, p.disk[..], p.Taken(), b, i);
    TailLeft(p, taken0, Owned(nodes[k], d0) - Owned(x, p.disk[..]), p.Taken());
  }

  lemma OwnBlock(lo: nat, hi: nat, s: seq<word>, d: seq<Sector>, b: nat)
    requires DirBlocksOk(lo, hi, s, d) && b < DIR_BLOCKS && s[b] != 0
    ensures s[b] as nat in Footprint(s, d)
  {
    DirFootprint(lo, hi, s, d);
  }

  /** Only the root's first block is block 0. */
  lemma NotRootBlock(nodes: map<nat, Node>, d: seq<Sector>, taken: set<nat>, lo: nat, hi: nat, t: nat, k: nat, b: nat)
    requires Consistent(nodes, d, taken, lo, hi, t) && k in nodes && nodes[k].DirNode? && 0 < b < DIR_BLOCKS
    ensures |nodes[k].sectors| == 13 && (nodes[k].sectors[b] != 0 ==> nodes[k].sectors[b] != lo)
  {
    hide RecordAt, RecordOf, Footprint, LiveSlotsOk, NamesOk, FreeSlotsOk, FileOk;
    assert NodeOk(lo, hi, nodes[k], d) && NodeOk(lo, hi, nodes[0], d);
    if nodes[k].sectors[b] == lo {
      OwnBlock(lo, hi, nodes[k].sectors, d, b);
      OwnBlock(lo, hi, nodes[0].sectors, d, 0);
      OneOwner(nodes, d, taken, lo, hi, t, k, 0, lo);
    }
  }

  // ---------------------------------------------------------------- inode_release

  /** The blocks among the first `n` of all_blocks. */
  function FreedBy(all: seq<word>, n: nat): (r: set<nat>)
    requires n <= |all|
    ensures forall b: nat :: b in r <==> b != 0 && b in all[..n]
  {
    if n == 0 then {}
    else
      assert all[..n] == all[..n - 1] + [all[n - 1]];
      FreedBy(all, n - 1) + (if all[n - 1] != 0 then {all[n - 1]} else {})
  }

  /** The loops of inode_release over the table and the blocks, with its assertions that block 0 is not among them. */
  method FreeBlocks(p: Partition, nd: Inode) returns (ok: bool)
    requires p.Shape() && nd.Valid()
    requires forall b :: b in Footprint(nd.sectors, p.disk[..]) ==> p.dataLba <= b < p.dataLba + p.dataCnt
    modifies p.blockMap.bits, p.blockArea
    ensures ok <==> p.dataLba !in Footprint(nd.sectors, p.disk[..])
    ensures ok ==> p.Taken() == old(p.Taken()) - Footprint(nd.sectors, p.disk[..])
    ensures ok && old(p.BlocksStored()) ==> p.BlocksStored()
  {
    hide Partition.Taken, Footprint, Chain, InFootprint, FreedBy, Partition.BlocksStored;
    ghost var taken0 := p.Taken();
    var all, cnt := nd.sectors[..DIRECT] + seq(128, _ => 0), DIRECT;
    ghost var table: set<nat> := {};
    ChainParts(nd.sectors, p.disk[..]);
    if nd.sectors[12] != 0 {
      all := all[..DIRECT] + Decode(p.disk[nd.sectors[12]]);
      cnt := MAX_BLOCKS;
      if nd.sectors[12] - p.dataLba == 0 {
        return false;
      }
      p.BlockReturn(nd.sectors[12]);
      table := {nd.sectors[12] as nat};
    }
    FreedNone(all);
    assert all == Chain(nd.sectors, p.disk[..]);
    var idx := 0;
    while idx < cnt
      invariant 0 <= idx <= cnt <= |all|
      invariant p.Taken() == taken0 - table - FreedBy(all, idx)
      invariant p.dataLba !in FreedBy(all, idx) && (old(p.BlocksStored()) ==> p.BlocksStored())
    {
      FreedStep(all, idx);
      if all[idx] != 0 {
        if all[idx] - p.dataLba == 0 {
          return false;
        }
        p.BlockReturn(all[idx]);
      }
      idx := idx + 1;
    }
    FreedAll(nd.sectors, p.disk[..], cnt);
    ok := true;
  }

  /** How all_blocks is put together, and that what is in it is the inode's. */
  lemma ChainParts(s: seq<word>, d: seq<Sector>)
    requires |s| == 13
    ensures s[12] == 0 ==> Chain(s, d) == s[..DIRECT] + seq(128, _ => 0)
    ensures 0 != s[12] < |d| ==> Chain(s, d) == s[..DIRECT] + Decode(d[s[12]])
    ensures s[12] != 0 ==> s[12] in Footprint(s, d)
    ensures forall i :: 0 <= i < MAX_BLOCKS && Chain(s, d)[i] != 0 ==> Chain(s, d)[i] in Footprint(s, d)
  {
    hide Decode;
  }

  lemma FreedNone(all: seq<word>)
    ensures FreedBy(all, 0) == {}
  {
  }

  lemma FreedStep(all: seq<word>, n: nat)
    requires n < |all|
    ensures FreedBy(all, n + 1) == FreedBy(all, n) + (if all[n] != 0 then {all[n] as nat} else {})
  {
  }

  lemma FreedAll(s: seq<word>, d: seq<Sector>, cnt: nat)
    requires |s| == 13 && s[12] < |d| && cnt == if s[12] != 0 then MAX_BLOCKS else DIRECT
    ensures Footprint(s, d) == (if s[12] != 0 then {s[12] as nat} else {}) + FreedBy(Chain(s, d), cnt)
  {
    hide Decode;
    var c := Chain(s, d);
    assert s[12] == 0 ==> forall i :: DIRECT <= i < MAX_BLOCKS ==> c[i] == 0;
    forall b: nat ensures b != 0 && b in c <==> b in FreedBy(c, cnt) {
      if b != 0 && b in c {
        var i :| 0 <= i < MAX_BLOCKS && c[i] == b;
        assert c[..cnt][i] == b;
      }
    }
  }

  lemma OtherRecord(d0: seq<Sector>, d: seq<Sector>, t: nat, lo: nat, no: nat, rec: Record, m: nat)
    requires OnlyRecord(d0, d, t, lo, no, rec) && m < MAX_INODES && m != no
    ensures RecordAt(d, t, m) == RecordAt(d0, t, m)
  {
  }

  lemma StoredOnly0(d0: seq<Sector>, d: seq<Sector>, t: nat, lo: nat, no: nat)
    requires HasTable(d0, t) && t + TABLE_SECTS <= lo <= |d0| && no < MAX_INODES
    requires RecordStored(d0, d, t, no, Zeros(INODE_SIZE))
    ensures OnlyRecord(d0, d, t, lo, no, Unpack(Zeros(INODE_SIZE))) && |d| == |d0|
    ensures forall b :: lo <= b < |d| ==> d[b] == d0[b]
  {
    hide RecordBytes, Unpack, ByteAt;
    StoredReads(d0, d, t, no, Zeros(INODE_SIZE), no);
    forall m | 0 <= m < MAX_INODES && m != no ensures RecordAt(d, t, m) == RecordAt(d0, t, m) {
      StoredReads(d0, d, t, no, Zeros(INODE_SIZE), m);
    }
  }

  /** The end of the map stays taken, and so does block 0, when only blocks inside are given back. */
  lemma TailLeft(p: Partition, taken0: set<nat>, freed: set<nat>, taken: set<nat>)
    requires p.Shape() && TailTaken(p.dataLba, p.dataCnt, p.blockMap.bytesLen, taken0) && taken == taken0 - freed
    requires forall b :: b in freed ==> p.dataLba < b < p.dataLba + p.dataCnt
    ensures TailTaken(p.dataLba, p.dataCnt, p.blockMap.bytesLen, taken)
  {
  }

  // ---------------------------------------------------------------- mkdir

  /** The first sector of a new directory. */
  function DotsSector(no: word, parentNo: word): Sector {
    Splice(Splice(Zeros(SECTOR_SIZE), 0, EntryBytes(NewEntry(DOT, no, FT_DIRECTORY))),
           ENTRY_SIZE, EntryBytes(NewEntry(DOT_DOT, parentNo, FT_DIRECTORY)))
  }

  ghost predicate HasDots(sec: seq<byte>, no: word, parentNo: word) {
    sec == DotsSector(no, parentNo)
  }

  function NewDir(no: word, lba: word, parentNo: word): Node {
    DirNode(2 * ENTRY_SIZE, seq(13, i => if i == 0 then lba else 0),
            map[DOT := Info(no, FT_DIRECTORY), DOT_DOT := Info(parentNo, FT_DIRECTORY)])
  }

  /** What slot i of block b of a new directory holds. */
  function DotEntry(no: word, parentNo: word, b: nat, i: nat): Entry {
    if b == 0 && i == 0 then NewEntry(DOT, no, FT_DIRECTORY)
    else if b == 0 && i == 1 then NewEntry(DOT_DOT, parentNo, FT_DIRECTORY)
    else NO_ENTRY
  }

  lemma DotSlots(sec: seq<byte>, no: word, parentNo: word, i: nat)
    requires HasDots(sec, no, parentNo) && i < SLOTS
    ensures |sec| == SECTOR_SIZE
    ensures Slot(sec, i) == DotEntry(no, parentNo, 0, i)
  {
    hide Splice, EntryBytes, EntryOf, SlotBytes;
    var a, b := NewEntry(DOT, no, FT_DIRECTORY), NewEntry(DOT_DOT, parentNo, FT_DIRECTORY);
    var buf := Splice(Zeros(SECTOR_SIZE), 0, EntryBytes(a));
    EntryRoundTrip(a);
    EntryRoundTrip(b);
    SlotWritten(buf, 1, EntryBytes(b), i);
    SlotWritten(Zeros(SECTOR_SIZE), 0, EntryBytes(a), i);
    ZeroSlot(Zeros(SECTOR_SIZE), i);
  }

  /** A new directory stands for the map of its two dot names. */
  lemma NewDirOk(lo: nat, hi: nat, d: seq<Sector>, no: word, lba: word, parentNo: word)
    requires 0 < lo <= lba < hi <= |d| && HasDots(d[lba], no, parentNo)
    ensures NodeOk(lo, hi, NewDir(no, lba, parentNo), d)
    ensures Footprint(NewDir(no, lba, parentNo).sectors, d) == {lba as nat}
  {
    hide HasDots, Slot, NewEntry, Key;
    var x := NewDir(no, lba, parentNo);
    var s, m := x.sectors, x.names;
    forall b: nat, i: nat ensures At(s, d, b, i) == DotEntry(no, parentNo, b, i) {
      if b == 0 && i < SLOTS {
        DotSlots(d[lba], no, parentNo, i);
      }
    }
    NewDirSlots(m, s, d, no, parentNo);
    assert DirBlocksOk(lo, hi, s, d);
    DirFootprint(lo, hi, s, d);
    assert |m| == 2 by {
      assert DOT != DOT_DOT;
      assert m.Keys == {DOT, DOT_DOT};
    }
  }

  lemma NewDirSlots(m: map<seq<byte>, Info>, s: seq<word>, d: seq<Sector>, no: word, parentNo: word)
    requires m == map[DOT := Info(no, FT_DIRECTORY), DOT_DOT := Info(parentNo, FT_DIRECTORY)]
    requires forall b: nat, i: nat :: At(s, d, b, i) == DotEntry(no, parentNo, b, i)
    requires |s| == 13 && forall b :: 0 < b < 13 ==> s[b] == 0
    ensures LiveSlotsOk(m, s, d) && NamesOk(m, s, d) && FreeSlotsOk(s, d)
  {
    var a, c := NewEntry(DOT, no, FT_DIRECTORY), NewEntry(DOT_DOT, parentNo, FT_DIRECTORY);
    assert a.fileType == FT_DIRECTORY && c.fileType == FT_DIRECTORY && a.ino == no && c.ino == parentNo;
    assert Key(a) == DOT && Key(c) == DOT_DOT && DOT != DOT_DOT && DOT != [] && DOT_DOT != [];
    hide At, Key, NewEntry;
    assert forall b: nat, i: nat :: Live(s, d, b, i) <==> b == 0 && i < 2;
    assert Live(s, d, 0, 0) && Live(s, d, 0, 1);
    assert SomeSlot(s, d, DOT) && SomeSlot(s, d, DOT_DOT);
  }

  // ---------------------------------------------------------------- sixteen letters

  const LETTERS: seq<byte> := [97, 97, 97, 97, 97, 97, 97, 97, 97, 97, 97, 97, 97, 97, 97, 97]

  /** The first sector of a directory that lists a file of sixteen letters as inode 1. */
  ghost predicate HasLetters(sec: seq<byte>, no: word, parentNo: word) {
    sec == Splice(DotsSector(no, parentNo), 2 * ENTRY_SIZE, EntryBytes(NewEntry(LETTERS, 1, FT_REGULAR)))
  }

  function LettersMap(no: word, parentNo: word): map<seq<byte>, Info> {
    map[DOT := Info(no, FT_DIRECTORY), DOT_DOT := Info(parentNo, FT_DIRECTORY)][LETTERS := Info(1, FT_REGULAR)]
  }

  lemma LettersDir(lo: nat, hi: nat, s: seq<word>, d: seq<Sector>, lba: word, no: word, parentNo: word)
    requires 0 < lo <= lba < hi <= |d| && HasLetters(d[lba], no, parentNo)
    requires |s| == 13 && s[0] == lba && forall i :: 1 <= i < 13 ==> s[i] == 0
    ensures DirOk(lo, hi, LettersMap(no, parentNo), s, 3 * ENTRY_SIZE, d)
    ensures !FullBefore(s, d, 1)
  {
    hide DotsSector, NewEntry, Splice, EntryBytes, DirOk, Placed, Key, Slot;
    var dots := DotsSector(no, parentNo);
    assert HasDots(dots, no, parentNo);
    var e, x, d0 := NewEntry(LETTERS, 1, FT_REGULAR), NewDir(no, lba, parentNo), d[lba := dots];
    assert s == x.sectors;
    NewDirOk(lo, hi, d0, no, lba, parentNo);
    LettersEntry();
    EntryType(DOT, no, FT_DIRECTORY);
    EntryType(DOT_DOT, parentNo, FT_DIRECTORY);
    DotSlots(dots, no, parentNo, 0);
    DotSlots(dots, no, parentNo, 1);
    DotSlots(dots, no, parentNo, 2);
    DirectOnly(lo, hi, x.names, s, x.size, d0);
    PlacedInBlock(lo, hi, s, d0, {lba as nat}, 0, 2, e, d[lba]);
    assert d0[lba := d[lba]] == d;
    PlacedKeeps(lo, hi, x.names, s, x.size, d0, {lba as nat}, s, d, {lba as nat}, 0, 2, e);
    SlotWritten(dots, 2, EntryBytes(e), 3);
    DotSlots(dots, no, parentNo, 3);
    assert !Live(s, d, 0, 3);
  }

  lemma LettersEntry()
    ensures var e := NewEntry(LETTERS, 1, FT_REGULAR);
      e.fileType == FT_REGULAR && e.ino == 1 && Key(e) == LETTERS && !Dotted(LETTERS) && LETTERS != []
  {
  }

  /** In that directory the guard of create does not find the name, and it is added a second time. */
  method SixteenLetters(p: Partition, nd: Inode, no: word, parentNo: word, ino: word)
    returns (found: bool, r: Outcome<bool>)
    requires p.Shape() && nd.size == 3 * ENTRY_SIZE && |nd.sectors| == 13
    requires forall i :: 1 <= i < 13 ==> nd.sectors[i] == 0
    requires p.dataLba <= nd.sectors[0] < p.dataLba + p.dataCnt && HasLetters(p.disk[nd.sectors[0]], no, parentNo)
    requires nd.sectors[0] in p.Taken() && TailTaken(p.dataLba, p.dataCnt, p.blockMap.bytesLen, p.Taken())
    modifies p.disk, p.blockMap.bits, p.blockArea, nd`size, nd`sectors
    ensures !found && r.Done? && Twice(nd.sectors, p.disk[..], LETTERS)
  {
    hide HasLetters, DirOk, Twice, TailTaken, Key, FullBefore;
    LettersDir(p.dataLba, p.dataLba + p.dataCnt, nd.sectors, p.disk[..], nd.sectors[0], no, parentNo);
    NotFull(nd.sectors, p.disk[..]);
    found, r := AddUnlessFound(p, nd, LETTERS, ino, FT_REGULAR, LettersMap(no, parentNo));
  }

  lemma NotFull(s: seq<word>, d: seq<Sector>)
    requires !FullBefore(s, d, 1)
    ensures forall c: nat :: c >= 1 ==> !FullBefore(s, d, c)
  {
  }

  /** Writing a sector nobody owns disturbs nothing. */
  lemma LooseWritten(p: Partition, nodes: map<nat, Node>, d: seq<Sector>, taken: set<nat>, b: nat, d': seq<Sector>)
    requires p.Shape() && Consistent(nodes, d, taken, p.dataLba, p.dataLba + p.dataCnt, p.tableLba)
    requires p.dataLba <= b < |d| && b !in taken && |d'| == |d| && forall x :: 0 <= x < |d| && x != b ==> d'[x] == d[x]
    ensures Consistent(nodes, d', taken, p.dataLba, p.dataLba + p.dataCnt, p.tableLba)
    ensures forall i :: i in nodes ==> Undisturbed(nodes[i], d, d')
    ensures forall m :: 0 <= m < MAX_INODES ==> RecordAt(d', p.tableLba, m) == RecordAt(d, p.tableLba, m)
  {
    hide RecordAt, RecordOf, Owned, Holds, NodeOk;
    forall m | 0 <= m < MAX_INODES ensures RecordAt(d', p.tableLba, m) == RecordAt(d, p.tableLba, m) {
      RecordFrame(d, d', p.tableLba, m);
    }
    forall i | i in nodes
      ensures NodeOk(p.dataLba, p.dataLba + p.dataCnt, nodes[i], d') && Undisturbed(nodes[i], d, d')
    {
      OwnedTaken(nodes, d, taken, p.dataLba, p.dataLba + p.dataCnt, p.tableLba, i);
      OwnedRange(p.dataLba, p.dataLba + p.dataCnt, nodes[i], d);
      NodeFrame(p.dataLba, p.dataLba + p.dataCnt, nodes[i], d, d');
    }
    assert OwnMap(nodes, d') == OwnMap(nodes, d);
  }

  lemma NewDirStored(p: Partition, nodes: map<nat, Node>, d: seq<Sector>, no: word, lba: word, parentNo: word)
    requires p.Shape() && no as nat !in nodes && no < 0x100 && p.dataLba <= lba < p.dataLba + p.dataCnt <= |d|
    requires lba as nat in p.Taken()
    requires Consistent(nodes, d, p.Taken() - {lba as nat}, p.dataLba, p.dataLba + p.dataCnt, p.tableLba)
    requires HasDots(d[lba], no, parentNo)
    requires RecordStored(d, p.disk[..], p.tableLba, no, Pack(RecordOf(no, NewDir(no, lba, parentNo))))
    ensures var x := NewDir(no, lba, parentNo);
      && Consistent(nodes[no as nat := x], p.disk[..], p.Taken(), p.dataLba, p.dataLba + p.dataCnt, p.tableLba)
      && Owned(x, p.disk[..]) == {lba as nat}
      && OnlyRecord(d, p.disk[..], p.tableLba, p.dataLba, no, RecordOf(no, x))
    ensures forall i :: i in nodes ==> Undisturbed(nodes[i], d, p.disk[..])
  {
    hide RecordAt, RecordStored, Pack, NodeOk, HasDots, Footprint, Undisturbed, Partition.Taken,
      Partition.BlocksStored, Partition.InodesStored;
    var x, d' := NewDir(no, lba, parentNo), p.disk[..];
    var lo, hi, t := p.dataLba, p.dataLba + p.dataCnt, p.tableLba;
    StoredOnly(d, d, d', t, lo, no, RecordOf(no, x));
    NewDirOk(lo, hi, d', no, lba, parentNo);
    hide OnlyRecord, NewDir;
    OwnsMore(OwnMap(nodes, d), p.Taken() - {lba as nat}, lo, hi, no, {lba as nat}, p.Taken());
    NodeChanged(nodes, d, p.Taken() - {lba as nat}, lo, hi, t, no, x, d', p.Taken());
  }

  lemma OnlyDots(x: Node)
    requires x.DirNode? && x.names.Keys == {DOT, DOT_DOT}
    requires forall z :: z in x.names ==> x.names[z].fileType == FT_DIRECTORY
    ensures DotsOk(x) && forall z :: z in x.names ==> Dotted(z)
  {
  }

  lemma StillOwned(x: Node, d: seq<Sector>, d': seq<Sector>)
    requires Undisturbed(x, d, d')
    ensures Owned(x, d') == Owned(x, d)
  {
  }

  lemma UndisturbedElse(nodes0: map<nat, Node>, nodes1: map<nat, Node>, nodes: map<nat, Node>, k: nat, j: nat,
                        d0: seq<Sector>, d1: seq<Sector>, d: seq<Sector>)
    requires k in nodes1 && nodes1 == nodes0[k := nodes1[k]]
    requires j !in nodes1 && j in nodes && nodes == nodes1[j := nodes[j]]
    requires forall i :: i in nodes1 && i != k ==> Undisturbed(nodes1[i], d0, d1)
    requires forall i :: i in nodes1 ==> Undisturbed(nodes[i], d1, d)
    ensures forall i :: i in nodes0 && i != k ==> Undisturbed(nodes[i], d0, d)
  {
    forall i | i in nodes0 && i != k ensures Undisturbed(nodes[i], d0, d) {
      assert i in nodes1 && nodes1[i] == nodes0[i] == nodes[i];
    }
  }

  lemma UndisturbedTwice(nodes: map<nat, Node>, d0: seq<Sector>, d1: seq<Sector>, d: seq<Sector>)
    requires forall i :: i in nodes ==> Undisturbed(nodes[i], d0, d1)
    ensures forall i :: i in nodes && Undisturbed(nodes[i], d1, d) ==> Undisturbed(nodes[i], d0, d)
  {
  }

  /** Where the first free slot of a directory is does not change when it is left alone. */
  lemma SameFirstSlots(lo: nat, hi: nat, nodes: map<nat, Node>, k: nat, d: seq<Sector>, d': seq<Sector>)
    requires k in nodes && nodes[k].DirNode? && NodeOk(lo, hi, nodes[k], d) && |d'| == |d|
    requires forall b :: b in Owned(nodes[k], d) ==> d'[b] == d[b]
    ensures forall b: nat :: FullBefore(nodes[k].sectors, d', b) <==> FullBefore(nodes[k].sectors, d, b)
    ensures BlocksNeeded(nodes[k].sectors, d') == BlocksNeeded(nodes[k].sectors, d)
  {
    hide Slot, LiveSlotsOk, NamesOk, FreeSlotsOk;
    var s := nodes[k].sectors;
    forall b: nat, i: nat ensures Live(s, d', b, i) <==> Live(s, d, b, i) {
      if HasSlot(s, d, b, i) {
        OwnBlock(lo, hi, s, d, b);
      }
    }
  }

  /** The mounted partition all runs start from: only the root, on block 0, which is its own parent. */
  lemma OnlyRoot(d: seq<Sector>, taken: set<nat>, lo: word, hi: nat, t: nat)
    requires 0 < t && t + TABLE_SECTS <= lo < hi == |d| && HasDots(d[lo], 0, 0)
    requires RecordAt(d, t, 0) == RecordOf(0, NewDir(0, lo, 0))
    requires forall b :: lo <= b < hi ==> (b in taken <==> b == lo as nat)
    ensures var nodes: map<nat, Node> := map[0 := NewDir(0, lo, 0)];
      Consistent(nodes, d, taken, lo, hi, t) && Linked(nodes)
  {
    hide RecordAt, HasDots, Footprint, DirOk;
    var nodes: map<nat, Node> := map[0 := NewDir(0, lo, 0)];
    NewDirOk(lo, hi, d, 0, lo, 0);
    var own := OwnMap(nodes, d);
    assert own[0] == {lo as nat};
    assert lo as nat in own[0] && OwnedBySome(own, lo);
    assert forall x :: !HasName(nodes, 0, x);
    assert DotsOk(nodes[0]);
  }

  // ---------------------------------------------------------------- open inodes

  lemma OpenNode(p: Partition, nodes: map<nat, Node>, nd: Inode, taken: set<nat>)
    requires p.Shape() && p.Cached() && nd in p.open && nd.no as nat in nodes
    requires Consistent(nodes, p.disk[..], taken, p.dataLba, p.dataLba + p.dataCnt, p.tableLba)
    ensures nd.Valid() && nd.no < 0x100
    ensures nodes[nd.no].size == nd.size && nodes[nd.no].sectors == nd.sectors
    ensures NodeOk(p.dataLba, p.dataLba + p.dataCnt, nodes[nd.no], p.disk[..])
    ensures Owned(nodes[nd.no], p.disk[..]) == Footprint(nd.sectors, p.disk[..]) <= taken
  {
    hide NodeOk, RecordAt, Footprint;
    assert RecordAt(p.disk[..], p.tableLba, nd.no) == nd.Pure() == RecordOf(nd.no, nodes[nd.no]);
    OwnedTaken(nodes, p.disk[..], taken, p.dataLba, p.dataLba + p.dataCnt, p.tableLba, nd.no);
  }

  // ---------------------------------------------------------------- append

  lemma AppendedNode(nodes: map<nat, Node>, d0: seq<Sector>, taken0: set<nat>, lo: nat, hi: nat, t: nat, k: word,
                     s0: seq<word>, size0: word, src: seq<byte>, x: Node, d: seq<Sector>, taken: set<nat>)
    requires Consistent(nodes, d0, taken0, lo, hi, t) && k as nat in nodes && nodes[k] == FileNode(size0, s0)
    requires x.FileNode?
    requires Written(lo, hi, s0, size0, d0, taken0, src, x.sectors, x.size, d, taken)
    requires OnlyRecord(d0, d, t, lo, k, RecordOf(k, x))
    ensures Consistent(nodes[k as nat := x], d, taken, lo, hi, t)
    ensures Holds(x, d).0 == Holds(nodes[k], d0).0 + src
    ensures forall i :: i in nodes && i != k as nat ==> Undisturbed(nodes[i], d0, d)
  {
    hide RecordAt, Footprint, Content, OnlyRecord, Mapped, DirOk;
    assert NodeOk(lo, hi, nodes[k], d0) && NodeOk(lo, hi, x, d);
    OwnedRange(lo, hi, x, d);
    OwnsMore(OwnMap(nodes, d0), taken0, lo, hi, k, Owned(x, d), taken);
    NodeChanged(nodes, d0, taken0, lo, hi, t, k, x, d, taken);
  }

  /** file_write on an open inode: the others that are open stay what the disk says they are. */
  method WriteOpen(p: Partition, f: File, src: seq<byte>) returns (r: Outcome<word>)
    requires p.Shape() && p.Cached() && f.inode in p.open && f.inode.no < 0x100 && f.inode.Valid()
    requires Writable(p, f.inode)
    requires f.inode.size + |src| < 0x1_0000_0000
    modifies p.disk, p.blockMap.bits, p.blockArea, f.inode`size, f.inode`sectors, f`pos
    ensures r != Halted ==> p.Cached() && (old(p.BlocksStored()) ==> p.BlocksStored())
    ensures r == Null <==> old(f.inode.size) + |src| > MAX_FILE
    ensures r == Null ==>
      unchanged(p.disk) && unchanged(p.blockMap.bits) && unchanged(p.blockArea) && unchanged(f.inode) && unchanged(f)
    ensures r == Halted <==>
      || old(f.inode.size) + |src| == MAX_FILE
      || (old(f.inode.size) + |src| < MAX_FILE
          && FreeCount(old(p.blockMap.Map())) < NeededBlocks(old(f.inode.sectors), old(f.inode.size), |src|))
    ensures r.Done? ==>
      && r.value == |src| && f.inode.Valid() && Writable(p, f.inode) && f.inode.size == old(f.inode.size) + |src|
      && f.pos == U32(f.inode.size - 1)
      && Written(p.dataLba, p.dataLba + p.dataCnt, old(f.inode.sectors), old(f.inode.size), old(p.disk[..]),
                 old(p.Taken()), src,
                 f.inode.sectors, f.inode.size, p.disk[..], p.Taken())
      && OnlyRecord(old(p.disk[..]), p.disk[..], p.tableLba, p.dataLba, f.inode.no, f.inode.Pure())
  {
    hide FileOk, RecordAt, Footprint, TailTaken, Content, OnlyRecord, FreeCount, Partition.Taken, NeededBlocks,
      Written, Partition.BlocksStored;
    ghost var d0, before := p.disk[..], OpenRecords(p);
    AllCached(p);
    r := FileWrite(p, f, src);
    if r.Done? {
      CachedAfter(p, f.inode, d0, before);
    }
  }

  /** What the open inodes would be written as. */
  ghost function OpenRecords(p: Partition): map<Inode, Record>
    reads p, p.open
  {
    map nd | nd in p.open :: nd.Pure()
  }

  ghost predicate RecordsCached(d: seq<Sector>, t: nat, open: seq<Inode>, recs: map<Inode, Record>) {
    && HasTable(d, t)
    && (forall i, j :: 0 <= i < j < |open| ==> open[i] != open[j])
    && (forall nd :: nd in open ==> nd in recs)
    && (forall a, b :: a in open && b in open && recs[a].no == recs[b].no ==> a == b)
    && (forall nd :: nd in open ==> recs[nd].no < MAX_INODES && RecordAt(d, t, recs[nd].no) == recs[nd])
  }

  /** After an inode was synced the open inodes are still what the disk says. */
  lemma CachedAfter(p: Partition, nd: Inode, d0: seq<Sector>, before: map<Inode, Record>)
    requires p.Shape() && RecordsCached(d0, p.tableLba, p.open, before) && nd in p.open && nd.Valid()
    requires nd.no == before[nd].no
    requires forall x :: x in p.open && x != nd ==> x.Pure() == before[x]
    requires OnlyRecord(d0, p.disk[..], p.tableLba, p.dataLba, nd.no, nd.Pure())
    ensures p.Cached()
  {
    hide RecordAt;
    forall x | x in p.open
      ensures x.no < MAX_INODES && RecordAt(p.disk[..], p.tableLba, x.no) == x.Pure() && x.Valid()
    {
      assert x.no == before[x].no;
      RecordHasSectors(p.disk[..], p.tableLba, x.no);
    }
  }

  lemma RecordHasSectors(d: seq<Sector>, t: nat, no: nat)
    requires HasTable(d, t) && no < MAX_INODES
    ensures |RecordAt(d, t, no).sectors| == 13
  {
  }
}
