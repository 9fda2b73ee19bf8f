/** search_dir_entry, sync_dir_entry and delete_dir_entry of fs/dir.c. */
module Directories {
  import opened Bitmaps
  import opened Outcomes
  import opened Disks
  import opened InodeTable
  import opened Partitions
  import opened FileBlocks
  import opened FileGrowth
  import opened Files
  import opened DirSlots

  // ---------------------------------------------------------------- search

  /** strcmp finds the slot's name equal. */
  predicate Matches(s: seq<word>, d: seq<Sector>, b: nat, i: nat, name: seq<byte>) {
    HasSlot(s, d, b, i) && CStr(SlotBytes(d[s[b]], i)) == name
  }

  /** When a search can find `name`: a name of sixteen bytes needs an inode number whose low byte is zero. */
  predicate Findable(m: map<seq<byte>, Info>, name: seq<byte>) {
    name in m && (|name| < NAME_LEN || m[name].ino % 0x100 == 0)
  }

  /** The slot a search stops at holds what the map says. */
  lemma MatchHolds(lo: nat, hi: nat, m: map<seq<byte>, Info>, s: seq<word>, size: nat, d: seq<Sector>, b: nat, i: nat,
                   name: seq<byte>)
    requires DirOk(lo, hi, m, s, size, d) && Matches(s, d, b, i, name)
    requires 0 < |name| <= NAME_LEN && 0 !in name
    ensures Live(s, d, b, i) && Findable(m, name)
    ensures var e := At(s, d, b, i); Key(e) == name && m[name] == Info(e.ino, e.fileType)
  {
    hide SlotBytes, EntryOf, CStr, EntryBytes, SomeSlot, BlockUsed;
    var e := At(s, d, b, i);
    BytesRoundTrip(SlotBytes(d[s[b]], i));
    MatchIff(e, name);
    EmptyKey(e);
    assert EntryKnown(m, e);
  }

  lemma EmptyKey(e: Entry)
    requires |e.name| == NAME_LEN
    ensures e.name[0] == 0 ==> Key(e) == []
  {
    if e.name[0] == 0 {
      CStrIs(e.name, []);
    }
  }

  /** A name that can be found is found in some slot. */
  lemma FindableMatches(lo: nat, hi: nat, m: map<seq<byte>, Info>, s: seq<word>, size: nat, d: seq<Sector>,
                        name: seq<byte>)
    requires DirOk(lo, hi, m, s, size, d) && |name| <= NAME_LEN && 0 !in name && Findable(m, name)
    ensures exists b: nat, i: nat :: Matches(s, d, b, i, name)
  {
    hide SlotBytes, EntryOf, CStr, EntryBytes, BlockUsed;
    assert SomeSlot(s, d, name);
    var b: nat, i: nat :| Live(s, d, b, i) && Key(At(s, d, b, i)) == name;
    assert EntryKnown(m, At(s, d, b, i));
    BytesRoundTrip(SlotBytes(d[s[b]], i));
    MatchIff(At(s, d, b, i), name);
    assert Matches(s, d, b, i, name);
  }

  method FindInSector(sec: seq<byte>, name: seq<byte>) returns (i: nat)
    requires |sec| == SECTOR_SIZE
    ensures i <= SLOTS && (i < SLOTS ==> CStr(SlotBytes(sec, i)) == name)
    ensures forall j :: 0 <= j < i ==> CStr(SlotBytes(sec, j)) != name
  {
    i := 0;
    while i < SLOTS
      invariant i <= SLOTS
      invariant forall j :: 0 <= j < i ==> CStr(SlotBytes(sec, j)) != name
    {
      if CStr(SlotBytes(sec, i)) == name {
        return;
      }
      i := i + 1;
    }
  }

  /** strcmp finds the name of a slot equal, in any block of the directory, direct or behind the table. */
  ghost predicate MatchAt(c: seq<word>, d: seq<Sector>, b: nat, i: nat, name: seq<byte>) {
    b < |c| && 0 != c[b] < |d| && i < SLOTS && CStr(SlotBytes(d[c[b]], i)) == name
  }

  lemma InSector(c: seq<word>, d: seq<Sector>, b: nat, i: nat, name: seq<byte>)
    requires b < |c| && 0 != c[b] < |d| && i <= SLOTS && (i < SLOTS ==> CStr(SlotBytes(d[c[b]], i)) == name)
    requires forall j :: 0 <= j < i ==> CStr(SlotBytes(d[c[b]], j)) != name
    ensures i < SLOTS ==> MatchAt(c, d, b, i, name)
    ensures forall j: nat :: MatchAt(c, d, b, j, name) ==> i <= j < SLOTS
  {
    hide SlotBytes, CStr;
  }

  lemma MatchInside(c: seq<word>, d: seq<Sector>, name: seq<byte>)
    ensures forall b: nat, i: nat :: MatchAt(c, d, b, i, name) ==> b < |c|
  {
  }

  lemma NoSector(c: seq<word>, d: seq<Sector>, b: nat, name: seq<byte>)
    requires b < |c| && c[b] == 0
    ensures forall j: nat :: !MatchAt(c, d, b, j, name)
  {
  }

  /** search_dir_entry on any directory: it gives the first slot whose name compares equal. */
  method SearchDirEntry(p: Partition, nd: Inode, name: seq<byte>)
    returns (found: bool, e: Entry, ghost b: nat, ghost i: nat)
    requires |nd.sectors| == 13 && nd.sectors[12] as nat < p.disk.Length
    requires forall x :: 0 <= x < MAX_BLOCKS ==> Chain(nd.sectors, p.disk[..])[x] as nat < p.disk.Length
    ensures found <==> exists x: nat, j: nat :: MatchAt(Chain(nd.sectors, p.disk[..]), p.disk[..], x, j, name)
    ensures found ==>
      var c := Chain(nd.sectors, p.disk[..]);
      && MatchAt(c, p.disk[..], b, i, name) && e == Slot(p.disk[c[b]], i)
      && forall x: nat, j: nat :: MatchAt(c, p.disk[..], x, j, name) ==> b < x || (b == x && i <= j)
  {
    hide SlotBytes, EntryOf, CStr, MatchAt, Chain;
    var all := Chain(nd.sectors, p.disk[..]);
    var idx := 0;
    while idx < MAX_BLOCKS
      invariant 0 <= idx <= MAX_BLOCKS
      invariant forall x: nat, j: nat :: x < idx ==> !MatchAt(all, p.disk[..], x, j, name)
    {
      if all[idx] != 0 {
        var slot := FindInSector(p.disk[all[idx]], name);
        InSector(all, p.disk[..], idx, slot, name);
        if slot < SLOTS {
          return true, Slot(p.disk[all[idx]], slot), idx, slot;
        }
      } else {
        NoSector(all, p.disk[..], idx, name);
      }
      idx := idx + 1;
    }
    MatchInside(all, p.disk[..], name);
    return false, Entry(Zeros(NAME_LEN), 0, 0), 0, 0;
  }

  /** search_dir_entry on a directory that stands for a map: an entry is found exactly when the map has the name, but
      for names of sixteen bytes, and it is what the map says. */
  method SearchName(p: Partition, nd: Inode, name: seq<byte>, ghost m: map<seq<byte>, Info>)
    returns (found: bool, e: Entry)
    requires p.Shape() && DirOk(p.dataLba, p.dataLba + p.dataCnt, m, nd.sectors, nd.size, p.disk[..])
    requires 0 < |name| <= NAME_LEN && 0 !in name
    ensures found <==> Findable(m, name)
    ensures found ==> Key(e) == name && m[name] == Info(e.ino, e.fileType)
  {
    hide SlotBytes, EntryOf, CStr, LiveSlotsOk, NamesOk, FreeSlotsOk, Findable, Key, MatchAt, Chain, Slot;
    ghost var s, d := nd.sectors, p.disk[..];
    ghost var lo, hi := p.dataLba, p.dataLba + p.dataCnt;
    ghost var b, i;
    DirectChain(lo, hi, s, d, name);
    found, e, b, i := SearchDirEntry(p, nd, name);
    assert p.disk[..] == d;
    if found {
      MatchHolds(lo, hi, m, s, nd.size, d, b, i, name);
    } else if Findable(m, name) {
      FindableMatches(lo, hi, m, s, nd.size, d, name);
    }
  }

  /** Such a directory has direct blocks only. */
  lemma DirectChain(lo: nat, hi: nat, s: seq<word>, d: seq<Sector>, name: seq<byte>)
    requires DirBlocksOk(lo, hi, s, d)
    ensures forall x :: 0 <= x < MAX_BLOCKS ==> Chain(s, d)[x] as nat < |d|
    ensures forall b: nat, i: nat :: MatchAt(Chain(s, d), d, b, i, name) <==> Matches(s, d, b, i, name)
    ensures forall b: nat, i: nat ::
      MatchAt(Chain(s, d), d, b, i, name) ==> Slot(d[Chain(s, d)[b]], i) == At(s, d, b, i)
  {
    hide SlotBytes, EntryOf, CStr;
    assert forall b :: 0 <= b < DIRECT ==> Chain(s, d)[b] == s[b];
    assert forall b :: DIRECT <= b < MAX_BLOCKS ==> Chain(s, d)[b] == 0;
  }

  // ---------------------------------------------------------------- insert

  /** Every slot of the blocks before `b` is live. */
  ghost predicate FullBefore(s: seq<word>, d: seq<Sector>, b: nat) {
    forall c: nat, j: nat :: c < b && j < SLOTS ==> Live(s, d, c, j)
  }

  /** The entry went into slot (b, i), the first that was not live. */
  ghost predicate Placed(s0: seq<word>, d0: seq<Sector>, taken0: set<nat>, s: seq<word>, d: seq<Sector>,
                         taken: set<nat>, b: nat, i: nat, e: Entry) {
    && |s0| == |s| == 13 && b < DIR_BLOCKS && i < SLOTS && |d| == |d0|
    && FullBefore(s0, d0, b) && (forall j: nat :: j < i ==> Live(s0, d0, b, j))
    && !Live(s0, d0, b, i) && Live(s, d, b, i) && At(s, d, b, i) == e && Elsewhere(s0, d0, s, d, b, i)
    && (forall x :: 0 <= x < |d| && x != s[b] ==> d[x] == d0[x])
    && if s0[b] != 0 then s == s0 && taken == taken0
       else i == 0 && s == s0[b := s[b]] && s[b] != 0 && s[b] !in taken0 && taken == taken0 + {s[b]}
  }

  lemma PlacedInBlock(lo: nat, hi: nat, s: seq<word>, d: seq<Sector>, taken: set<nat>, b: nat, i: nat, e: Entry,
                      sec: Sector)
    requires DirectBlocksOk(lo, hi, s, d) && b < DIR_BLOCKS && s[b] != 0 && i < SLOTS
    requires |e.name| == NAME_LEN && e.fileType != 0
    requires FullBefore(s, d, b) && (forall j: nat :: j < i ==> Live(s, d, b, j)) && Slot(d[s[b]], i).fileType == 0
    requires sec == Splice(d[s[b]], ENTRY_SIZE * i, EntryBytes(e))
    ensures Placed(s, d, taken, s, d[s[b] := sec], taken, b, i, e)
  {
    hide SlotBytes, EntryOf, EntryBytes, Slot, Splice;
    var d' := d[s[b] := sec];
    EntryRoundTrip(e);
    SlotWritten(d[s[b]], i, EntryBytes(e), i);
    forall c: nat, j: nat | !(c == b && j == i) ensures SameSlot(s, d, s, d', c, j) {
      if c == b && j < SLOTS {
        SlotWritten(d[s[b]], i, EntryBytes(e), j);
      }
    }
  }

  lemma PlacedInNewBlock(lo: nat, hi: nat, s: seq<word>, d: seq<Sector>, taken: set<nat>, b: nat, e: Entry, lba: word,
                         sec: Sector)
    requires DirectBlocksOk(lo, hi, s, d) && b < DIR_BLOCKS && s[b] == 0 && lo <= lba < hi && lba !in taken
    requires forall c :: 0 <= c < DIR_BLOCKS && s[c] != 0 ==> s[c] in taken
    requires |e.name| == NAME_LEN && e.fileType != 0 && FullBefore(s, d, b)
    requires sec == Splice(Zeros(SECTOR_SIZE), 0, EntryBytes(e))
    ensures Placed(s, d, taken, s[b := lba], d[lba := sec], taken + {lba}, b, 0, e)
  {
    hide SlotBytes, EntryOf, EntryBytes, Slot, Splice;
    var s', d' := s[b := lba], d[lba := sec];
    EntryRoundTrip(e);
    SlotWritten(Zeros(SECTOR_SIZE), 0, EntryBytes(e), 0);
    forall c: nat, j: nat | !(c == b && j == 0) ensures SameSlot(s, d, s', d', c, j) {
      if c == b && j < SLOTS {
        SlotWritten(Zeros(SECTOR_SIZE), 0, EntryBytes(e), j);
        ZeroSlot(Zeros(SECTOR_SIZE), j);
      }
    }
  }

  method FreeSlot(sec: seq<byte>) returns (i: nat)
    requires |sec| == SECTOR_SIZE
    ensures i <= SLOTS && (i < SLOTS ==> Slot(sec, i).fileType == 0)
    ensures forall j :: 0 <= j < i ==> Slot(sec, j).fileType != 0
  {
    i := 0;
    while i < SLOTS
      invariant i <= SLOTS
      invariant forall j :: 0 <= j < i ==> Slot(sec, j).fileType != 0
    {
      if Slot(sec, i).fileType == 0 {
        return;
      }
      i := i + 1;
    }
  }

  ghost predicate DirTaken(p: Partition, s: seq<word>)
    requires p.Shape()
    reads p.blockMap.bits
  {
    && TailTaken(p.dataLba, p.dataCnt, p.blockMap.bytesLen, p.Taken())
    && |s| == 13 && forall c :: 0 <= c < DIR_BLOCKS && s[c] != 0 ==> s[c] in p.Taken()
  }

  /** The branch of sync_dir_entry for a direct block that is not there yet. */
  method EntryInNewBlock(p: Partition, nd: Inode, idx: nat, e: Entry) returns (r: Outcome<bool>)
    requires p.Shape() && DirectBlocksOk(p.dataLba, p.dataLba + p.dataCnt, nd.sectors, p.disk[..])
    requires DirTaken(p, nd.sectors)
    requires nd.size < 0x1000_0000 && |e.name| == NAME_LEN && e.fileType != 0
    requires idx < DIR_BLOCKS && nd.sectors[idx] == 0 && FullBefore(nd.sectors, p.disk[..], idx)
    modifies p.disk, p.blockMap.bits, p.blockArea, nd`size, nd`sectors
    ensures r != Halted && old(p.BlocksStored()) ==> p.BlocksStored()
    ensures r != Null && (r == Halted <==> FreeCount(old(p.blockMap.Map())) == 0)
    ensures r == Halted ==> unchanged(p.disk) && unchanged(p.blockMap.bits) && unchanged(p.blockArea) && unchanged(nd)
    ensures r.Done? ==>
      && r.value && nd.size == old(nd.size) + ENTRY_SIZE
      && Placed(old(nd.sectors), old(p.disk[..]), old(p.Taken()), nd.sectors, p.disk[..], p.Taken(), idx, 0, e)
      && p.dataLba <= nd.sectors[idx] < p.dataLba + p.dataCnt
  {
    hide Placed, Slot, EntryBytes, Splice, TailTaken, FreeCount, FullBefore, Partition.BlocksStored, Partition.Taken;
    ghost var s0, d0, taken0 := nd.sectors, p.disk[..], p.Taken();
    var lba := p.BlockTake();
    if lba == Halted {
      return Halted;
    }
    NewInside(p.dataLba, p.dataCnt, p.blockMap.bytesLen, taken0, lba.value);
    var sec: Sector := Splice(Zeros(SECTOR_SIZE), 0, EntryBytes(e));
    PlacedInNewBlock(p.dataLba, p.dataLba + p.dataCnt, s0, d0, taken0, idx, e, lba.value, sec);
    nd.sectors := nd.sectors[idx := lba.value];
    p.disk[nd.sectors[idx]] := sec;
    assert p.disk[..] == d0[lba.value := sec];
    nd.size := nd.size + ENTRY_SIZE;
    r := Done(true);
  }

  /** The entry is the only one behind a new table: whatever table there was is forgotten. Of the sectors from `lo` on
      only the two new blocks have changed. */
  ghost predicate Tabled(lo: nat, s0: seq<word>, d0: seq<Sector>, taken0: set<nat>, s: seq<word>, d: seq<Sector>,
                         taken: set<nat>, e: Entry) {
    && |s0| == |s| == 13 && s == s0[12 := s[12]] && |d| == |d0| && |e.name| == NAME_LEN && s[12] < |d|
    && var table, b := s[12], Decode(d[s[12]])[0];
      && table != 0 && b != 0 && table != b && table !in taken0 && b !in taken0
      && taken == taken0 + {table as nat, b as nat} && b < |d|
      && d[table] == Encode([b] + seq(127, _ => 0)) && d[b] == Splice(Zeros(SECTOR_SIZE), 0, EntryBytes(e))
      && forall x :: lo <= x < |d| && x != table && x != b ==> d[x] == d0[x]
  }

  /** The branch of sync_dir_entry for block 12. The loop before it has read the direct blocks only, so block 12
      always looks as if it were not there. */
  method EntryBehindTable(p: Partition, nd: Inode, e: Entry) returns (r: Outcome<bool>)
    requires p.Shape() && DirectBlocksOk(p.dataLba, p.dataLba + p.dataCnt, nd.sectors, p.disk[..])
    requires DirTaken(p, nd.sectors)
    requires nd.size < 0x1000_0000 && |e.name| == NAME_LEN && e.fileType != 0
    modifies p.disk, p.blockMap.bits, p.blockArea, nd`size, nd`sectors
    ensures r != Null && (r == Halted <==> FreeCount(old(p.blockMap.Map())) < 2)
    ensures r != Halted && old(p.BlocksStored()) ==> p.BlocksStored()
    ensures r.Done? ==>
      && r.value && nd.size == old(nd.size) + ENTRY_SIZE
      && Tabled(0, old(nd.sectors), old(p.disk[..]), old(p.Taken()), nd.sectors, p.disk[..], p.Taken(), e)
  {
    hide EntryBytes, Splice, TailTaken, FreeCount, Partition.BlocksStored, Partition.Taken, Encode, Decode, Tabled,
      DirectBlocksOk;
    ghost var s0, d0, taken0 := nd.sectors, p.disk[..], p.Taken();
    var table := p.BlockTake();
    if table == Halted {
      return Halted;
    }
    NewInside(p.dataLba, p.dataCnt, p.blockMap.bytesLen, taken0, table.value);
    nd.sectors := nd.sectors[12 := table.value];
    ghost var taken1 := p.Taken();
    var lba := p.BlockTake();
    if lba == Halted {
      return Halted;
    }
    TailKept(p.dataLba, p.dataCnt, p.blockMap.bytesLen, taken0, taken1);
    NewInside(p.dataLba, p.dataCnt, p.blockMap.bytesLen, taken1, lba.value);
    var words: seq<word> := [lba.value] + seq(127, _ => 0);
    var out: Sector := Encode(words);
    p.disk[nd.sectors[12]] := out;
    var sec: Sector := Splice(Zeros(SECTOR_SIZE), 0, EntryBytes(e));
    p.disk[lba.value] := sec;
    TabledIs(s0, d0, taken0, table.value, lba.value, e);
    ghost var d1: seq<Sector> := d0[table.value := out];
    assert p.disk[..] == d1[lba.value := sec];
    nd.size := nd.size + ENTRY_SIZE;
    r := Done(true);
  }

  lemma TabledIs(s: seq<word>, d: seq<Sector>, taken: set<nat>, table: word, b: word, e: Entry)
    requires |s| == 13 && 0 != table < |d| && 0 != b < |d| && |e.name| == NAME_LEN
    requires table !in taken && b !in taken + {table as nat}
    ensures var out: Sector := Encode([b] + seq(127, _ => 0));
      var sec: Sector := Splice(Zeros(SECTOR_SIZE), 0, EntryBytes(e));
      Tabled(0, s, d, taken, s[12 := table], d[table := out][b := sec], taken + {table} + {b}, e)
  {
    hide Splice, EntryBytes, Encode, Decode;
    DecodeEncode([b] + seq(127, _ => 0));
  }

  /** What an earlier entry behind a table becomes when the next one is added there: neither its block nor its table
      belongs to the directory any longer, but both stay taken. */
  lemma TableForgotten(lo: nat, s0: seq<word>, d0: seq<Sector>, taken0: set<nat>, s1: seq<word>, d1: seq<Sector>,
                       taken1: set<nat>, e1: Entry, s2: seq<word>, d2: seq<Sector>, taken2: set<nat>, e2: Entry)
    requires Tabled(lo, s0, d0, taken0, s1, d1, taken1, e1) && Tabled(lo, s1, d1, taken1, s2, d2, taken2, e2)
    requires forall c :: 0 <= c < DIRECT && s0[c] != 0 ==> s0[c] in taken0
    ensures var b1, t1 := Chain(s1, d1)[DIRECT], s1[12];
      && InFootprint(s1, d1, b1) && b1 in taken2 && !InFootprint(s2, d2, b1)
      && InFootprint(s1, d1, t1) && t1 in taken2 && !InFootprint(s2, d2, t1)
  {
    hide Splice, EntryBytes, Encode, Decode;
    var t1, t2 := s1[12], s2[12];
    var b1, b2 := Decode(d1[t1])[0], Decode(d2[t2])[0];
    DecodeEncode([b1] + seq(127, _ => 0));
    DecodeEncode([b2] + seq(127, _ => 0));
    assert Chain(s1, d1)[DIRECT] == b1;
    forall k | 0 <= k < MAX_BLOCKS ensures Chain(s2, d2)[k] != b1 && Chain(s2, d2)[k] != t1 {
      if k < DIRECT {
        assert Chain(s2, d2)[k] == s0[k];
      } else {
        assert Chain(s2, d2)[k] == ([b2] + seq(127, _ => 0))[k - DIRECT];
      }
    }
  }

  /** sync_dir_entry. It finds room in the direct blocks or puts the entry behind a new table. */
  method SyncDirEntry(p: Partition, nd: Inode, e: Entry) returns (r: Outcome<bool>, ghost b: nat, ghost i: nat)
    requires p.Shape() && DirectBlocksOk(p.dataLba, p.dataLba + p.dataCnt, nd.sectors, p.disk[..])
    requires DirTaken(p, nd.sectors)
    requires nd.size < 0x1000_0000 && |e.name| == NAME_LEN && e.fileType != 0
    modifies p.disk, p.blockMap.bits, p.blockArea, nd`size, nd`sectors
    ensures r != Null && (r != Halted && old(p.BlocksStored()) ==> p.BlocksStored())
    ensures r == Halted <==>
      || (FreeCount(old(p.blockMap.Map())) == 0
          && exists c ::
            0 <= c < DIR_BLOCKS && old(nd.sectors)[c] == 0 && FullBefore(old(nd.sectors), old(p.disk[..]), c))
      || (FreeCount(old(p.blockMap.Map())) < 2 && FullBefore(old(nd.sectors), old(p.disk[..]), DIR_BLOCKS))
    ensures r.Done? ==> r.value && nd.size == old(nd.size) + ENTRY_SIZE
    ensures r.Done? && FullBefore(old(nd.sectors), old(p.disk[..]), DIR_BLOCKS) ==>
      Tabled(0, old(nd.sectors), old(p.disk[..]), old(p.Taken()), nd.sectors, p.disk[..], p.Taken(), e)
    ensures r.Done? && !FullBefore(old(nd.sectors), old(p.disk[..]), DIR_BLOCKS) ==>
      && Placed(old(nd.sectors), old(p.disk[..]), old(p.Taken()), nd.sectors, p.disk[..], p.Taken(), b, i, e)
      && p.dataLba <= nd.sectors[b] < p.dataLba + p.dataCnt
  {
    hide Placed, Tabled, Slot, EntryBytes, Splice, TailTaken, FreeCount, Partition.BlocksStored;
    ghost var s0, d0, taken0 := nd.sectors, p.disk[..], p.Taken();
    ghost var lo, hi := p.dataLba, p.dataLba + p.dataCnt;
    b, i := 0, 0;
    var idx := 0;
    while idx < DIR_BLOCKS
      invariant 0 <= idx <= DIR_BLOCKS
      invariant nd.sectors == s0 && nd.size == old(nd.size) && p.disk[..] == d0
      invariant unchanged(p.blockMap.bits) && unchanged(p.disk) && unchanged(p.blockArea) && unchanged(nd)
      invariant FullBefore(s0, d0, idx) && forall c :: 0 <= c < idx ==> s0[c] != 0
    {
      if nd.sectors[idx] == 0 {
        assert forall c: nat :: c > idx ==> !FullBefore(s0, d0, c) by {
          assert !Live(s0, d0, idx, 0);
        }
        r := EntryInNewBlock(p, nd, idx, e);
        return r, idx, 0;
      }
      var slot := FreeSlot(p.disk[nd.sectors[idx]]);
      if slot < SLOTS {
        assert forall c: nat :: c > idx ==> !FullBefore(s0, d0, c) by {
          assert !Live(s0, d0, idx, slot);
        }
        var sec: Sector := Splice(p.disk[nd.sectors[idx]], ENTRY_SIZE * slot, EntryBytes(e));
        PlacedInBlock(lo, hi, s0, d0, taken0, idx, slot, e, sec);
        p.disk[nd.sectors[idx]] := sec;
        assert p.disk[..] == d0[s0[idx] := sec];
        nd.size := nd.size + ENTRY_SIZE;
        return Done(true), idx, slot;
      }
      idx := idx + 1;
    }
    r := EntryBehindTable(p, nd, e);
  }

  lemma NewInside(lo: nat, cnt: nat, bytesLen: nat, taken: set<nat>, b: nat)
    requires TailTaken(lo, cnt, bytesLen, taken) && b !in taken && lo <= b < lo + 8 * bytesLen
    ensures lo < b < lo + cnt
  {
  }

  /** The entry's name is new to the directory, and so is its inode number. */
  predicate NewName(m: map<seq<byte>, Info>, e: Entry) {
    Key(e) !in m && Key(e) != [] && forall x :: x in m && !Dotted(x) ==> m[x].ino != e.ino
  }

  /** Inserting a fresh name inserts it into the map, and nothing else changes there. */
  lemma PlacedKeeps(lo: nat, hi: nat, m: map<seq<byte>, Info>, s0: seq<word>, size0: nat, d0: seq<Sector>,
                    taken0: set<nat>, s: seq<word>, d: seq<Sector>, taken: set<nat>, b: nat, i: nat, e: Entry)
    requires DirOk(lo, hi, m, s0, size0, d0) && Placed(s0, d0, taken0, s, d, taken, b, i, e) && lo <= s[b] < hi
    requires forall c :: 0 <= c < DIR_BLOCKS && s0[c] != 0 ==> s0[c] in taken0
    requires NewName(m, e)
    ensures DirOk(lo, hi, m[Key(e) := Info(e.ino, e.fileType)], s, size0 + ENTRY_SIZE, d)
  {
    hide HasSlot, At, Key, LiveSlotsOk, NamesOk, SomeSlot, BlockUsed, FreeSlotsOk;
    SlotTaken(m, s0, d0, s, d, b, i);
    PlacedFree(m, s0, d0, taken0, s, d, taken, b, i, e);
  }

  lemma PlacedFree(m: map<seq<byte>, Info>, s0: seq<word>, d0: seq<Sector>, taken0: set<nat>, s: seq<word>,
                   d: seq<Sector>, taken: set<nat>, b: nat, i: nat, e: Entry)
    requires FreeSlotsOk(s0, d0) && Placed(s0, d0, taken0, s, d, taken, b, i, e)
    ensures FreeSlotsOk(s, d)
  {
    hide HasSlot, At, Key, Live, Elsewhere;
    ElsewhereLive(s0, d0, s, d, b, i);
    forall c: nat | 0 < c < DIR_BLOCKS && s[c] != 0 ensures BlockUsed(s, d, c) {
      if c == b {
        assert Live(s, d, c, i);
      } else {
        assert BlockUsed(s0, d0, c);
        var j: nat :| Live(s0, d0, c, j);
        assert Live(s, d, c, j);
      }
    }
  }

  // ---------------------------------------------------------------- delete

  /** A live slot that is neither "." nor "..", as strcmp sees it. */
  predicate Named(sec: seq<byte>, i: nat)
    requires i < SLOTS && |sec| == SECTOR_SIZE
  {
    Slot(sec, i).fileType != 0 && !Dotted(CStr(SlotBytes(sec, i)))
  }

  function CountNamed(sec: seq<byte>, n: nat): (c: nat)
    requires n <= SLOTS && |sec| == SECTOR_SIZE
    ensures c <= n
  {
    if n == 0 then 0 else CountNamed(sec, n - 1) + (if Named(sec, n - 1) then 1 else 0)
  }

  lemma {:induction false} CountNamedNone(sec: seq<byte>, n: nat)
    requires n <= SLOTS && |sec| == SECTOR_SIZE
    ensures CountNamed(sec, n) == 0 <==> forall j :: 0 <= j < n ==> !Named(sec, j)
  {
    hide Named;
    if n == 0 {
    } else {
      CountNamedNone(sec, n - 1);
    }
  }

  /** One named slot: it is the only one. */
  lemma {:induction false} CountNamedOne(sec: seq<byte>, n: nat, i: nat)
    requires i < n <= SLOTS && |sec| == SECTOR_SIZE && Named(sec, i)
    ensures CountNamed(sec, n) >= 1
    ensures CountNamed(sec, n) == 1 <==> forall j :: 0 <= j < n && j != i ==> !Named(sec, j)
  {
    hide Named;
    if i == n - 1 {
      CountNamedNone(sec, n - 1);
    } else {
      CountNamedOne(sec, n - 1, i);
    }
  }

  /** The block has the "." entry. */
  ghost predicate HasDot(sec: seq<byte>)
    requires |sec| == SECTOR_SIZE
  {
    exists i :: 0 <= i < SLOTS && Slot(sec, i).fileType != 0 && CStr(SlotBytes(sec, i)) == DOT
  }

  ghost predicate ListsTwice(sec: seq<byte>, ino: nat)
    requires |sec| == SECTOR_SIZE
  {
    exists i, j :: 0 <= i < j < SLOTS && Named(sec, i) && Named(sec, j) && Slot(sec, i).ino == Slot(sec, j).ino == ino
  }

  /** What delete_dir_entry learns from one sector; `dup` is its assertion that an inode is listed once. */
  method ScanSector(sec: seq<byte>, ino: nat) returns (isFirst: bool, cnt: nat, found: int, dup: bool)
    requires |sec| == SECTOR_SIZE
    ensures dup <==> ListsTwice(sec, ino)
    ensures !dup ==> cnt == CountNamed(sec, SLOTS) && -1 <= found < SLOTS
    ensures !dup ==> (isFirst <==> HasDot(sec))
    ensures !dup && found >= 0 ==> Named(sec, found) && Slot(sec, found).ino == ino
    ensures !dup ==> forall j :: 0 <= j < SLOTS && Named(sec, j) && Slot(sec, j).ino == ino ==> j == found
  {
    hide SlotBytes, EntryOf, CStr, Slot;
    isFirst, cnt, found, dup := false, 0, -1, false;
    var i := 0;
    while i < SLOTS
      invariant 0 <= i <= SLOTS && cnt == CountNamed(sec, i) && -1 <= found < i && !dup
      invariant isFirst <==> exists j :: 0 <= j < i && Slot(sec, j).fileType != 0 && CStr(SlotBytes(sec, j)) == DOT
      invariant found >= 0 ==> Named(sec, found) && Slot(sec, found).ino == ino
      invariant forall j :: 0 <= j < i && Named(sec, j) && Slot(sec, j).ino == ino ==> j == found
    {
      if Slot(sec, i).fileType != 0 {
        if CStr(SlotBytes(sec, i)) == DOT {
          isFirst := true;
        } else if CStr(SlotBytes(sec, i)) != DOT && CStr(SlotBytes(sec, i)) != DOT_DOT {
          cnt := cnt + 1;
          if Slot(sec, i).ino == ino {
            if found != -1 {
              dup := true;
              return;
            }
            found := i;
          }
        }
      }
      i := i + 1;
    }
  }

  /** Whether strcmp sees a dot entry, a named one or a free one is what the key says. */
  lemma NamedIs(s: seq<word>, d: seq<Sector>, b: nat, i: nat)
    requires HasSlot(s, d, b, i)
    ensures Named(d[s[b]], i) <==> Live(s, d, b, i) && !Dotted(Key(At(s, d, b, i)))
    ensures CStr(SlotBytes(d[s[b]], i)) == DOT <==> Key(At(s, d, b, i)) == DOT
  {
    hide SlotBytes, EntryOf, CStr, EntryBytes;
    var e := At(s, d, b, i);
    BytesRoundTrip(SlotBytes(d[s[b]], i));
    MatchIff(e, DOT);
    MatchIff(e, DOT_DOT);
  }

  /** Some name other than the dots leads to inode `ino`. */
  ghost predicate Listed(m: map<seq<byte>, Info>, ino: nat) {
    exists name :: name in m && !Dotted(name) && m[name].ino == ino
  }

  /** Nothing but slot i is live in block b, and the block is not the first. */
  ghost predicate LastIn(s: seq<word>, d: seq<Sector>, b: nat, i: nat) {
    b != 0 && forall j: nat :: j != i ==> !Live(s, d, b, j)
  }

  /** The slot a scan stops at leads to the inode. */
  lemma NamedKnown(lo: nat, hi: nat, m: map<seq<byte>, Info>, s: seq<word>, size: nat, d: seq<Sector>, b: nat, i: nat)
    requires DirOk(lo, hi, m, s, size, d) && HasSlot(s, d, b, i) && Named(d[s[b]], i)
    ensures var e := At(s, d, b, i); var name := Key(e);
      Live(s, d, b, i) && !Dotted(name) && name in m && m[name] == Info(e.ino, e.fileType) && Listed(m, e.ino)
  {
    hide SlotBytes, EntryOf, CStr, EntryBytes, SomeSlot, BlockUsed;
    NamedIs(s, d, b, i);
    assert EntryKnown(m, At(s, d, b, i));
  }

  /** Within a sector no inode is listed twice. */
  lemma NoDuplicate(lo: nat, hi: nat, m: map<seq<byte>, Info>, s: seq<word>, size: nat, d: seq<Sector>, b: nat, i: nat,
                    j: nat)
    requires DirOk(lo, hi, m, s, size, d) && HasSlot(s, d, b, i) && HasSlot(s, d, b, j)
    requires Named(d[s[b]], i) && Named(d[s[b]], j) && Slot(d[s[b]], i).ino == Slot(d[s[b]], j).ino
    ensures i == j
  {
    hide SlotBytes, EntryOf, CStr, EntryBytes, SomeSlot, BlockUsed;
    NamedKnown(lo, hi, m, s, size, d, b, i);
    NamedKnown(lo, hi, m, s, size, d, b, j);
  }

  /** An inode that is listed is found in some slot. */
  lemma ListedSlot(lo: nat, hi: nat, m: map<seq<byte>, Info>, s: seq<word>, size: nat, d: seq<Sector>, ino: nat)
    requires DirOk(lo, hi, m, s, size, d) && Listed(m, ino)
    ensures exists b: nat, i: nat :: HoldsIno(s, d, b, i, ino)
  {
    hide SlotBytes, EntryOf, CStr, EntryBytes, BlockUsed;
    var name :| name in m && !Dotted(name) && m[name].ino == ino;
    assert SomeSlot(s, d, name);
    var b: nat, i: nat :| Live(s, d, b, i) && Key(At(s, d, b, i)) == name;
    assert EntryKnown(m, At(s, d, b, i));
    NamedIs(s, d, b, i);
    assert HoldsIno(s, d, b, i, ino);
  }

  ghost predicate HoldsIno(s: seq<word>, d: seq<Sector>, b: nat, i: nat, ino: nat) {
    HasSlot(s, d, b, i) && Named(d[s[b]], i) && Slot(d[s[b]], i).ino == ino
  }

  /** The condition delete_dir_entry tests. */
  ghost predicate Alone(sec: seq<byte>)
    requires |sec| == SECTOR_SIZE
  {
    CountNamed(sec, SLOTS) == 1 && !HasDot(sec)
  }

  /** It says that the entry is the last one of a block other than the first. */
  lemma LastIffCounted(lo: nat, hi: nat, m: map<seq<byte>, Info>, s: seq<word>, size: nat, d: seq<Sector>, b: nat,
                       i: nat)
    requires DirOk(lo, hi, m, s, size, d) && HasSlot(s, d, b, i) && Named(d[s[b]], i)
    ensures Alone(d[s[b]]) <==> LastIn(s, d, b, i)
  {
    hide SlotBytes, EntryOf, CStr, EntryBytes, BlockUsed, Slot, HasDot;
    CountNamedOne(d[s[b]], SLOTS, i);
    FirstBlockIff(lo, hi, m, s, size, d, b);
    forall j: nat | j < SLOTS ensures Live(s, d, b, j) && b != 0 ==> Named(d[s[b]], j) {
      NamedIs(s, d, b, j);
    }
    forall j: nat | j < SLOTS && Named(d[s[b]], j) ensures Live(s, d, b, j) {
      NamedIs(s, d, b, j);
    }
    assert forall j: nat :: j >= SLOTS ==> !Live(s, d, b, j);
  }

  /** The block with the "." entry is the first. */
  lemma FirstBlockIff(lo: nat, hi: nat, m: map<seq<byte>, Info>, s: seq<word>, size: nat, d: seq<Sector>, b: nat)
    requires DirOk(lo, hi, m, s, size, d) && HasSlot(s, d, b, 0)
    ensures HasDot(d[s[b]]) <==> b == 0
  {
    hide SlotBytes, EntryOf, CStr, EntryBytes, BlockUsed, Slot;
    if HasDot(d[s[b]]) {
      var j :| 0 <= j < SLOTS && Slot(d[s[b]], j).fileType != 0 && CStr(SlotBytes(d[s[b]], j)) == DOT;
      NamedIs(s, d, b, j);
      assert Live(s, d, b, j);
    }
    if b == 0 {
      assert SomeSlot(s, d, DOT);
      var c: nat, j: nat :| Live(s, d, c, j) && Key(At(s, d, c, j)) == DOT;
      NamedIs(s, d, c, j);
    }
  }

  /** The slot is empty now: with its whole block when it was the last in it. */
  ghost predicate SlotRemoved(s0: seq<word>, d0: seq<Sector>, taken0: set<nat>, s: seq<word>, d: seq<Sector>,
                              taken: set<nat>, b: nat, i: nat) {
    && |s0| == 13 && HasSlot(s0, d0, b, i) && |d| == |d0|
    && (forall x :: 0 <= x < |d| && x != s0[b] ==> d[x] == d0[x])
    && if LastIn(s0, d0, b, i) then s == s0[b := 0] && d == d0 && taken == taken0 - {s0[b]}
       else s == s0 && d[s0[b]] == Splice(d0[s0[b]], ENTRY_SIZE * i, Zeros(ENTRY_SIZE)) && taken == taken0
  }

  lemma RemovedElsewhere(lo: nat, hi: nat, m: map<seq<byte>, Info>, s0: seq<word>, size: nat, d0: seq<Sector>,
                         taken0: set<nat>, s: seq<word>, d: seq<Sector>, taken: set<nat>, b: nat, i: nat)
    requires DirOk(lo, hi, m, s0, size, d0) && SlotRemoved(s0, d0, taken0, s, d, taken, b, i)
    ensures At(s, d, b, i) == NO_ENTRY && Elsewhere(s0, d0, s, d, b, i)
  {
    hide SlotBytes, EntryOf, Splice, Slot, SomeSlot, BlockUsed, LiveSlotsOk, NamesOk;
    ZeroEntry();
    if LastIn(s0, d0, b, i) {
      forall c: nat, j: nat | !(c == b && j == i) ensures SameSlot(s0, d0, s, d, c, j) {
        if c == b {
          assert !Live(s0, d0, b, j);
        }
      }
    } else {
      SlotWritten(d0[s0[b]], i, Zeros(ENTRY_SIZE), i);
      forall c: nat, j: nat | !(c == b && j == i) ensures SameSlot(s0, d0, s, d, c, j) {
        if c == b && j < SLOTS {
          SlotWritten(d0[s0[b]], i, Zeros(ENTRY_SIZE), j);
        }
      }
    }
  }

  lemma ZeroEntry()
    ensures EntryOf(Zeros(ENTRY_SIZE)) == NO_ENTRY
  {
    assert Zeros(ENTRY_SIZE)[..NAME_LEN] == Zeros(NAME_LEN);
  }

  /** Removing a slot removes its name from the map, and nothing else changes there. */
  lemma RemovedKeeps(lo: nat, hi: nat, m: map<seq<byte>, Info>, s0: seq<word>, size0: nat, d0: seq<Sector>,
                     taken0: set<nat>, s: seq<word>, d: seq<Sector>, taken: set<nat>, b: nat, i: nat)
    requires DirOk(lo, hi, m, s0, size0, d0) && SlotRemoved(s0, d0, taken0, s, d, taken, b, i)
    requires Live(s0, d0, b, i) && !Dotted(Key(At(s0, d0, b, i)))
    ensures size0 >= ENTRY_SIZE
    ensures DirOk(lo, hi, m - {Key(At(s0, d0, b, i))}, s, size0 - ENTRY_SIZE, d)
  {
    hide At, Key, LiveSlotsOk, NamesOk, SomeSlot, BlockUsed, FreeSlotsOk, Splice, Slot, Elsewhere;
    RemovedElsewhere(lo, hi, m, s0, size0, d0, taken0, s, d, taken, b, i);
    SlotGiven(m, s0, d0, s, d, b, i);
    RemovedFree(m, s0, d0, taken0, s, d, taken, b, i);
  }

  lemma RemovedFree(m: map<seq<byte>, Info>, s0: seq<word>, d0: seq<Sector>, taken0: set<nat>, s: seq<word>,
                    d: seq<Sector>, taken: set<nat>, b: nat, i: nat)
    requires FreeSlotsOk(s0, d0) && SlotRemoved(s0, d0, taken0, s, d, taken, b, i)
    requires At(s, d, b, i) == NO_ENTRY && Elsewhere(s0, d0, s, d, b, i)
    ensures FreeSlotsOk(s, d)
  {
    hide HasSlot, At, Key, Elsewhere, Splice, Slot;
    ElsewhereLive(s0, d0, s, d, b, i);
    hide Live;
    forall c: nat | 0 < c < DIR_BLOCKS && |s| == 13 && s[c] != 0 ensures BlockUsed(s, d, c) {
      if c == b {
        var j: nat :| j != i && Live(s0, d0, b, j);
        assert Live(s, d, c, j);
      } else {
        assert BlockUsed(s0, d0, c);
        var j: nat :| Live(s0, d0, c, j);
        assert Live(s, d, c, j);
      }
    }
  }

  ghost predicate Deleted(s0: seq<word>, d0: seq<Sector>, taken0: set<nat>, s: seq<word>, d: seq<Sector>,
                          taken: set<nat>, b: nat, i: nat, t: nat, lo: nat, no: nat, rec: Record) {
    && |s0| == 13 && HasSlot(s0, d0, b, i) && OnlyRecord(d0, d, t, lo, no, rec)
    && (forall x :: lo <= x < |d| && x != s0[b] ==> d[x] == d0[x])
    && if LastIn(s0, d0, b, i) then s == s0[b := 0] && taken == taken0 - {s0[b]} else s == s0 && taken == taken0
  }

  /** A slot of any block of the directory, direct or behind the table, leads to the inode. */
  ghost predicate HasIno(c: seq<word>, d: seq<Sector>, b: nat, i: nat, ino: nat) {
    b < |c| && 0 != c[b] < |d| && i < SLOTS && Named(d[c[b]], i) && Slot(d[c[b]], i).ino == ino
  }

  /** Block b is the first with such a slot. */
  ghost predicate FirstWith(c: seq<word>, d: seq<Sector>, b: nat, ino: nat) {
    && b < |c| && 0 != c[b] < |d| && (exists i: nat :: HasIno(c, d, b, i, ino))
    && forall x: nat, j: nat :: x < b ==> !HasIno(c, d, x, j, ino)
  }

  /** Every block there is lies among the data sectors. */
  ghost predicate ChainInside(lo: nat, hi: nat, s: seq<word>, d: seq<Sector>) {
    && |s| == 13 && s[12] < |d| && 0 < lo <= hi <= |d|
    && forall b: nat :: b < MAX_BLOCKS && Chain(s, d)[b] != 0 ==> lo <= Chain(s, d)[b] < hi
  }

  /** What delete_dir_entry does to slot i of block b. */
  ghost predicate Cleared(s0: seq<word>, d0: seq<Sector>, taken0: set<nat>, s: seq<word>, d: seq<Sector>,
                          taken: set<nat>, b: nat, i: nat, t: nat, lo: nat, no: nat, rec: Record) {
    && |s0| == 13 && b < MAX_BLOCKS && i < SLOTS && Chain(s0, d0)[b] < |d0| && OnlyRecord(d0, d, t, lo, no, rec)
    && var a := Chain(s0, d0)[b];
      && (forall x :: lo <= x < |d| && x != a ==> d[x] == d0[x])
      && if Alone(d0[a]) then b < DIRECT && s == s0[b := 0] && d[a] == d0[a] && taken == taken0 - {a as nat}
         else s == s0 && d[a] == Splice(d0[a], ENTRY_SIZE * i, Zeros(ENTRY_SIZE)) && taken == taken0
  }

  /** One of the assertions of delete_dir_entry fails, or it never leaves the loop that counts the blocks behind the
      table, whose index does not advance. */
  ghost predicate DeleteStops(c: seq<word>, d: seq<Sector>, size: nat, b: nat, ino: nat)
    requires FirstWith(c, d, b, ino)
  {
    ListsTwice(d[c[b]], ino) || (Alone(d[c[b]]) && b >= DIRECT) || size < ENTRY_SIZE
  }

  /** The loop of delete_dir_entry. */
  method FindEntry(p: Partition, c: seq<word>, ino: nat)
    returns (idx: nat, slot: nat, cnt: nat, isFirst: bool, dup: bool)
    requires |c| == MAX_BLOCKS && forall b :: 0 <= b < MAX_BLOCKS ==> c[b] < p.disk.Length
    ensures idx <= MAX_BLOCKS
    ensures idx == MAX_BLOCKS ==> forall b: nat, j: nat :: !HasIno(c, p.disk[..], b, j, ino)
    ensures idx < MAX_BLOCKS ==>
      FirstWith(c, p.disk[..], idx, ino) && (dup <==> ListsTwice(p.disk[c[idx]], ino))
    ensures idx < MAX_BLOCKS && !dup ==>
      && HasIno(c, p.disk[..], idx, slot, ino) && cnt == CountNamed(p.disk[c[idx]], SLOTS)
      && (isFirst <==> HasDot(p.disk[c[idx]]))
  {
    hide SlotBytes, EntryOf, CStr, Slot, HasDot, Named;
    idx, slot, cnt, isFirst, dup := 0, 0, 0, false, false;
    while idx < MAX_BLOCKS
      invariant 0 <= idx <= MAX_BLOCKS
      invariant forall b: nat, j: nat :: b < idx ==> !HasIno(c, p.disk[..], b, j, ino)
    {
      if c[idx] != 0 {
        var found;
        isFirst, cnt, found, dup := ScanSector(p.disk[c[idx]], ino);
        if dup {
          ghost var i, j :| 0 <= i < j < SLOTS && Named(p.disk[c[idx]], i) && Named(p.disk[c[idx]], j)
            && Slot(p.disk[c[idx]], i).ino == Slot(p.disk[c[idx]], j).ino == ino;
          assert HasIno(c, p.disk[..], idx, i, ino);
          return;
        }
        if found >= 0 {
          slot := found;
          assert HasIno(c, p.disk[..], idx, slot, ino);
          return;
        }
      }
      idx := idx + 1;
    }
  }

  /** The part of delete_dir_entry after the entry was found. */
  method RemoveSlot(p: Partition, nd: Inode, idx: nat, slot: nat, cnt: nat, isFirst: bool, ghost ino: nat)
    returns (r: Outcome<bool>)
    requires p.Shape() && ChainInside(p.dataLba, p.dataLba + p.dataCnt, nd.sectors, p.disk[..])
    requires HasIno(Chain(nd.sectors, p.disk[..]), p.disk[..], idx, slot, ino)
    requires var sec := p.disk[Chain(nd.sectors, p.disk[..])[idx]];
      cnt == CountNamed(sec, SLOTS) && (isFirst <==> HasDot(sec))
    modifies p.disk, p.blockMap.bits, p.blockArea, nd`size, nd`sectors
    ensures r != Null && (r != Halted && old(p.BlocksStored()) ==> p.BlocksStored())
    ensures r == Halted <==>
      || old(nd.size) < ENTRY_SIZE
      || (idx >= DIRECT && Alone(old(p.disk[Chain(nd.sectors, p.disk[..])[idx]])))
    ensures r.Done? ==>
      && r.value && nd.size == old(nd.size) - ENTRY_SIZE
      && Cleared(old(nd.sectors), old(p.disk[..]), old(p.Taken()), nd.sectors, p.disk[..], p.Taken(), idx, slot,
                 p.tableLba, p.dataLba, nd.no % 0x100, nd.Pure())
  {
    hide SlotBytes, EntryOf, Splice, CStr, HasDot, Partition.Taken, RecordStored, OnlyRecord, Pack, Decode,
      Partition.BlocksStored;
    ghost var d0 := p.disk[..];
    var all := Chain(nd.sectors, p.disk[..]);
    CountNamedOne(p.disk[all[idx]], SLOTS, slot);
    if cnt < 1 {
      return Halted;
    }
    if cnt == 1 && !isFirst {
      p.BlockReturn(all[idx]);
      if idx >= DIRECT {
        return Halted;
      }
      nd.sectors := nd.sectors[idx := 0];
    } else {
      var out: Sector := Splice(p.disk[all[idx]], ENTRY_SIZE * slot, Zeros(ENTRY_SIZE));
      p.disk[all[idx]] := out;
    }
    ghost var d := p.disk[..];
    if nd.size < ENTRY_SIZE {
      return Halted;
    }
    nd.size := nd.size - ENTRY_SIZE;
    var ok := p.InodeSync(nd);
    StoredOnly(d0, d, p.disk[..], p.tableLba, p.dataLba, nd.no % 0x100, nd.Pure());
    r := Done(true);
  }

  /** delete_dir_entry on any directory. The first block that lists the inode decides: the slot is cleared, and its
      block given back with it when nothing else is named there. A block behind the table is never given back: it is
      where the call runs for ever. */
  method DeleteDirEntry(p: Partition, nd: Inode, ino: nat) returns (r: Outcome<bool>, ghost b: nat, ghost i: nat)
    requires p.Shape() && ChainInside(p.dataLba, p.dataLba + p.dataCnt, nd.sectors, p.disk[..])
    modifies p.disk, p.blockMap.bits, p.blockArea, nd`size, nd`sectors
    ensures r != Null && (r != Halted && old(p.BlocksStored()) ==> p.BlocksStored())
    ensures r == Done(false) <==>
      forall x: nat, j: nat :: !HasIno(old(Chain(nd.sectors, p.disk[..])), old(p.disk[..]), x, j, ino)
    ensures r == Done(false) ==>
      unchanged(p.disk) && unchanged(p.blockMap.bits) && unchanged(p.blockArea) && unchanged(nd)
    ensures r != Done(false) ==> FirstWith(old(Chain(nd.sectors, p.disk[..])), old(p.disk[..]), b, ino)
    ensures r != Done(false) ==>
      (r == Halted <==> DeleteStops(old(Chain(nd.sectors, p.disk[..])), old(p.disk[..]), old(nd.size), b, ino))
    ensures r == Done(true) ==>
      && HasIno(old(Chain(nd.sectors, p.disk[..])), old(p.disk[..]), b, i, ino)
      && nd.size == old(nd.size) - ENTRY_SIZE
      && Cleared(old(nd.sectors), old(p.disk[..]), old(p.Taken()), nd.sectors, p.disk[..], p.Taken(), b, i,
                 p.tableLba, p.dataLba, nd.no % 0x100, nd.Pure())
  {
    hide HasIno, HasDot, ListsTwice, Cleared, Alone, Partition.Taken, Partition.BlocksStored;
    var c := Chain(nd.sectors, p.disk[..]);
    var idx, slot, cnt, isFirst, dup := FindEntry(p, c, ino);
    b, i := idx, slot;
    if idx == MAX_BLOCKS {
      return Done(false), b, i;
    }
    if dup {
      return Halted, b, i;
    }
    r := RemoveSlot(p, nd, idx, slot, cnt, isFirst, ino);
  }

  /** delete_dir_entry on a directory that stands for a map: none of its assertions fails, and it removes exactly the
      name that leads to `ino`. A block is freed exactly when that was the last entry in one that is not the first. */
  method DeleteName(p: Partition, nd: Inode, ino: nat, ghost m: map<seq<byte>, Info>)
    returns (r: Outcome<bool>, ghost b: nat, ghost i: nat)
    requires p.Shape() && DirOk(p.dataLba, p.dataLba + p.dataCnt, m, nd.sectors, nd.size, p.disk[..])
    modifies p.disk, p.blockMap.bits, p.blockArea, nd`size, nd`sectors
    ensures r == Done(Listed(m, ino)) && (old(p.BlocksStored()) ==> p.BlocksStored())
    ensures !Listed(m, ino) ==>
      unchanged(p.disk) && unchanged(p.blockMap.bits) && unchanged(p.blockArea) && unchanged(nd)
    ensures Listed(m, ino) ==>
      && Live(old(nd.sectors), old(p.disk[..]), b, i) && old(nd.size) >= ENTRY_SIZE
      && nd.size == old(nd.size) - ENTRY_SIZE
      && var name := Key(At(old(nd.sectors), old(p.disk[..]), b, i));
        && name in m && !Dotted(name) && m[name].ino == ino
        && DirOk(p.dataLba, p.dataLba + p.dataCnt, m - {name}, nd.sectors, nd.size, p.disk[..])
    ensures Listed(m, ino) ==>
      Deleted(old(nd.sectors), old(p.disk[..]), old(p.Taken()), nd.sectors, p.disk[..], p.Taken(), b, i,
              p.tableLba, p.dataLba, nd.no % 0x100, nd.Pure())
  {
    hide DirOk, HasIno, HasDot, ListsTwice, Cleared, Alone, Partition.Taken, Partition.BlocksStored, Listed, Deleted,
      Chain, Live, At, Key, FirstWith, DeleteStops;
    ghost var s0, size0, d0, taken0 := nd.sectors, nd.size, p.disk[..], p.Taken();
    ghost var lo, hi := p.dataLba, p.dataLba + p.dataCnt;
    DirChain(lo, hi, m, s0, size0, d0, ino);
    r, b, i := DeleteDirEntry(p, nd, ino);
    if r != Done(false) {
      NeverStops(lo, hi, m, s0, size0, d0, b, ino);
      assert r.Done? && r.value;
      ClearedDir(lo, hi, m, s0, size0, d0, taken0, nd.sectors, p.disk[..], p.Taken(), b, i, ino, p.tableLba,
                 nd.no % 0x100, nd.Pure());
    }
  }

  /** Its blocks are the direct ones, and a slot that leads to `ino` is there exactly when the map lists it. */
  lemma DirChain(lo: nat, hi: nat, m: map<seq<byte>, Info>, s: seq<word>, size: nat, d: seq<Sector>, ino: nat)
    requires DirOk(lo, hi, m, s, size, d)
    ensures ChainInside(lo, hi, s, d)
    ensures Listed(m, ino) <==> exists b: nat, i: nat :: HasIno(Chain(s, d), d, b, i, ino)
  {
    hide SlotBytes, EntryOf, CStr, Slot, SomeSlot, BlockUsed, LiveSlotsOk, NamesOk, FreeSlotsOk, Named, Listed;
    forall b: nat, i: nat ensures HasIno(Chain(s, d), d, b, i, ino) <==> HoldsIno(s, d, b, i, ino) {
      DirectIno(s, d, b, i, ino);
    }
    if Listed(m, ino) {
      ListedSlot(lo, hi, m, s, size, d, ino);
    }
    if b: nat, i: nat :| HoldsIno(s, d, b, i, ino) {
      NamedKnown(lo, hi, m, s, size, d, b, i);
    }
  }

  lemma DirectIno(s: seq<word>, d: seq<Sector>, b: nat, i: nat, ino: nat)
    requires |s| == 13 && s[12] == 0
    ensures HasIno(Chain(s, d), d, b, i, ino) <==> HoldsIno(s, d, b, i, ino)
    ensures HasIno(Chain(s, d), d, b, i, ino) ==> b < DIRECT && Chain(s, d)[b] == s[b]
  {
    hide SlotBytes, EntryOf, CStr, Slot, Named;
    assert b < DIRECT ==> Chain(s, d)[b] == s[b];
    assert DIRECT <= b < MAX_BLOCKS ==> Chain(s, d)[b] == 0;
  }

  lemma NeverStops(lo: nat, hi: nat, m: map<seq<byte>, Info>, s: seq<word>, size: nat, d: seq<Sector>, b: nat, ino: nat)
    requires DirOk(lo, hi, m, s, size, d) && FirstWith(Chain(s, d), d, b, ino)
    ensures !DeleteStops(Chain(s, d), d, size, b, ino) && HasSlot(s, d, b, 0) && Chain(s, d)[b] == s[b]
  {
    hide SlotBytes, EntryOf, CStr, Slot, SomeSlot, BlockUsed, LiveSlotsOk, NamesOk, FreeSlotsOk, Named, Alone, HasDot;
    var i: nat :| HasIno(Chain(s, d), d, b, i, ino);
    DirectIno(s, d, b, i, ino);
    NamedKnown(lo, hi, m, s, size, d, b, i);
    assert |m| > 0;
    if ListsTwice(d[s[b]], ino) {
      var x, y :| 0 <= x < y < SLOTS && Named(d[s[b]], x) && Named(d[s[b]], y)
        && Slot(d[s[b]], x).ino == Slot(d[s[b]], y).ino == ino;
      NoDuplicate(lo, hi, m, s, size, d, b, x, y);
    }
  }

  lemma SameLength(d0: seq<Sector>, d: seq<Sector>, t: nat, lo: nat, no: nat, rec: Record)
    requires OnlyRecord(d0, d, t, lo, no, rec)
    ensures |d| == |d0|
  {
  }

  lemma ClearedDir(lo: nat, hi: nat, m: map<seq<byte>, Info>, s0: seq<word>, size0: nat, d0: seq<Sector>,
                   taken0: set<nat>, s: seq<word>, d: seq<Sector>, taken: set<nat>, b: nat, i: nat, ino: nat, t: nat,
                   no: nat, rec: Record)
    requires DirOk(lo, hi, m, s0, size0, d0) && HasIno(Chain(s0, d0), d0, b, i, ino)
    requires Cleared(s0, d0, taken0, s, d, taken, b, i, t, lo, no, rec)
    ensures Deleted(s0, d0, taken0, s, d, taken, b, i, t, lo, no, rec) && size0 >= ENTRY_SIZE
    ensures Live(s0, d0, b, i) && var name := Key(At(s0, d0, b, i));
      && name in m && !Dotted(name) && m[name].ino == ino && DirOk(lo, hi, m - {name}, s, size0 - ENTRY_SIZE, d)
  {
    hide SlotBytes, EntryOf, Splice, CStr, LiveSlotsOk, NamesOk, FreeSlotsOk, Listed, Dotted, Key, LastIn, Slot, Named,
      OnlyRecord, Alone, HasDot;
    DirectIno(s0, d0, b, i, ino);
    NamedKnown(lo, hi, m, s0, size0, d0, b, i);
    LastIffCounted(lo, hi, m, s0, size0, d0, b, i);
    SameLength(d0, d, t, lo, no, rec);
    var d1 := if LastIn(s0, d0, b, i) then d0 else d0[s0[b] := d[s0[b]]];
    RemovedKeeps(lo, hi, m, s0, size0, d0, taken0, s, d1, taken, b, i);
    DirFrame(lo, hi, m - {Key(At(s0, d0, b, i))}, s, size0 - ENTRY_SIZE, d1, d);
  }

  // ---------------------------------------------------------------- behind the table

  /** The thirteenth block of a directory is a trap: the next entry goes behind a new table, where a search finds it,
      and to delete it again takes for ever. */
  method AddThenDelete(p: Partition, nd: Inode, e: Entry, ghost m: map<seq<byte>, Info>)
    returns (found: bool, r: Outcome<bool>)
    requires p.Shape() && DirOk(p.dataLba, p.dataLba + p.dataCnt, m, nd.sectors, nd.size, p.disk[..])
    requires DirTaken(p, nd.sectors) && FullBefore(nd.sectors, p.disk[..], DIR_BLOCKS)
    requires |e.name| == NAME_LEN && e.fileType != 0 && NewName(m, e) && !Dotted(Key(e))
    requires FreeCount(p.blockMap.Map()) >= 2
    modifies p.disk, p.blockMap.bits, p.blockArea, nd`size, nd`sectors
    ensures r == Halted && (|Key(e)| < NAME_LEN ==> found)
  {
    hide DirOk, DirTaken, FullBefore, Tabled, Placed, Key, NewName, Partition.Taken, FreeCount, Partition.BlocksStored,
      DirectBlocksOk;
    ghost var s0, size0, d0, taken0 := nd.sectors, nd.size, p.disk[..], p.Taken();
    DirSmall(p.dataLba, p.dataLba + p.dataCnt, m, s0, size0, d0);
    DirectOnly(p.dataLba, p.dataLba + p.dataCnt, m, s0, size0, d0);
    TakenBefore(p, s0);
    ghost var b, i;
    r, b, i := SyncDirEntry(p, nd, e);
    TabledFrom(0, p.dataLba, s0, d0, taken0, nd.sectors, p.disk[..], p.Taken(), e);
    found := SearchBehindTable(p, nd, e, s0, d0, taken0);
    r := DeleteBehindTable(p, nd, e, m, s0, size0, d0, taken0);
  }

  method SearchBehindTable(p: Partition, nd: Inode, e: Entry, ghost s0: seq<word>, ghost d0: seq<Sector>,
                           ghost taken0: set<nat>)
    returns (found: bool)
    requires p.Shape() && DirectBlocksOk(p.dataLba, p.dataLba + p.dataCnt, s0, d0)
    requires TailTaken(p.dataLba, p.dataCnt, p.blockMap.bytesLen, taken0)
    requires Tabled(p.dataLba, s0, d0, taken0, nd.sectors, p.disk[..], p.Taken(), e)
    ensures |Key(e)| < NAME_LEN ==> found
  {
    hide TailTaken, Tabled, Key, Chain, Partition.Taken, DirectBlocksOk, MatchAt;
    ghost var s, d := nd.sectors, p.disk[..];
    TableInside(p, s0, d0, taken0, s, e);
    var entry;
    ghost var b, i;
    found, entry, b, i := SearchDirEntry(p, nd, Key(e));
    assert p.disk[..] == d;
    if |Key(e)| < NAME_LEN {
      MatchBehind(p.dataLba, s0, d0, taken0, s, d, p.Taken(), e);
    }
  }

  lemma MatchBehind(lo: nat, s0: seq<word>, d0: seq<Sector>, taken0: set<nat>, s: seq<word>, d: seq<Sector>,
                    taken: set<nat>, e: Entry)
    requires Tabled(lo, s0, d0, taken0, s, d, taken, e) && |Key(e)| < NAME_LEN
    ensures MatchAt(Chain(s, d), d, 12, 0, Key(e))
  {
    hide EntryBytes, Splice, Encode, Decode, Key;
    var b := Decode(d[s[12]])[0];
    DecodeEncode([b] + seq(127, _ => 0));
    assert Chain(s, d)[12] == b;
    KeyMatches(e);
    OneSlot(e);
  }

  lemma KeyMatches(e: Entry)
    requires |e.name| == NAME_LEN && |Key(e)| < NAME_LEN
    ensures CStr(EntryBytes(e)) == Key(e)
  {
    hide EntryBytes;
    MatchIff(e, Key(e));
  }

  lemma OneSlot(e: Entry)
    requires |e.name| == NAME_LEN
    ensures SlotBytes(Splice(Zeros(SECTOR_SIZE), 0, EntryBytes(e)), 0) == EntryBytes(e)
  {
    hide EntryBytes;
  }

  lemma TabledFrom(lo: nat, lo': nat, s0: seq<word>, d0: seq<Sector>, taken0: set<nat>, s: seq<word>, d: seq<Sector>,
                   taken: set<nat>, e: Entry)
    requires Tabled(lo, s0, d0, taken0, s, d, taken, e) && lo <= lo'
    ensures Tabled(lo', s0, d0, taken0, s, d, taken, e)
  {
    hide EntryBytes, Splice, Encode, Decode;
  }

  lemma TakenBefore(p: Partition, s: seq<word>)
    requires p.Shape() && DirTaken(p, s)
    ensures TailTaken(p.dataLba, p.dataCnt, p.blockMap.bytesLen, p.Taken())
    ensures |s| == 13 && forall c :: 0 <= c < DIR_BLOCKS && s[c] != 0 ==> s[c] in p.Taken()
  {
  }

  method DeleteBehindTable(p: Partition, nd: Inode, e: Entry, ghost m: map<seq<byte>, Info>, ghost s0: seq<word>,
                           ghost size0: nat, ghost d0: seq<Sector>, ghost taken0: set<nat>)
    returns (r: Outcome<bool>)
    requires p.Shape() && DirOk(p.dataLba, p.dataLba + p.dataCnt, m, s0, size0, d0)
    requires TailTaken(p.dataLba, p.dataCnt, p.blockMap.bytesLen, taken0)
    requires forall c :: 0 <= c < DIR_BLOCKS && s0[c] != 0 ==> s0[c] in taken0
    requires Tabled(p.dataLba, s0, d0, taken0, nd.sectors, p.disk[..], p.Taken(), e)
    requires e.fileType != 0 && NewName(m, e) && !Dotted(Key(e))
    modifies p.disk, p.blockMap.bits, p.blockArea, nd`size, nd`sectors
    ensures r == Halted
  {
    hide DirOk, TailTaken, Tabled, Key, HasIno, FirstWith, NewName, Chain, Cleared, Partition.Taken,
      Partition.BlocksStored, ChainInside, Alone, DirectBlocksOk;
    ghost var s, d := nd.sectors, p.disk[..];
    DirectOnly(p.dataLba, p.dataLba + p.dataCnt, m, s0, size0, d0);
    TableInside(p, s0, d0, taken0, s, e);
    BehindTable(p.dataLba, p.dataLba + p.dataCnt, m, s0, size0, d0, taken0, s, d, p.Taken(), e);
    OneFirst(Chain(s, d), d, 12, e.ino);
    ghost var x, y;
    r, x, y := DeleteDirEntry(p, nd, e.ino);
  }

  lemma OneFirst(c: seq<word>, d: seq<Sector>, b: nat, ino: nat)
    requires FirstWith(c, d, b, ino)
    ensures forall x: nat :: FirstWith(c, d, x, ino) ==> x == b
    ensures exists y: nat, j: nat :: HasIno(c, d, y, j, ino)
  {
    hide HasIno;
  }

  /** The new blocks lie among the data sectors. */
  lemma TableInside(p: Partition, s0: seq<word>, d0: seq<Sector>, taken0: set<nat>, s: seq<word>, e: Entry)
    requires p.Shape() && TailTaken(p.dataLba, p.dataCnt, p.blockMap.bytesLen, taken0)
    requires DirectBlocksOk(p.dataLba, p.dataLba + p.dataCnt, s0, d0)
    requires Tabled(p.dataLba, s0, d0, taken0, s, p.disk[..], p.Taken(), e)
    ensures |s| == 13 && ChainInside(p.dataLba, p.dataLba + p.dataCnt, s, p.disk[..])
  {
    hide EntryBytes, Splice, Encode, Decode;
    var table, b := s[12], Decode(p.disk[s[12]])[0];
    DecodeEncode([b] + seq(127, _ => 0));
    assert table as nat in p.Taken() && b as nat in p.Taken();
    NewInside(p.dataLba, p.dataCnt, p.blockMap.bytesLen, taken0, b);
    forall k: nat | k < MAX_BLOCKS && Chain(s, p.disk[..])[k] != 0
      ensures p.dataLba <= Chain(s, p.disk[..])[k] < p.dataLba + p.dataCnt
    {
      if k < DIRECT {
        assert Chain(s, p.disk[..])[k] == s0[k];
      } else {
        assert Chain(s, p.disk[..])[k] == ([b] + seq(127, _ => 0))[k - DIRECT];
      }
    }
  }

  /** The new entry is the only one of the first block behind the table, and its inode is nowhere before it. */
  lemma BehindTable(lo: nat, hi: nat, m: map<seq<byte>, Info>, s0: seq<word>, size0: nat, d0: seq<Sector>,
                    taken0: set<nat>, s: seq<word>, d: seq<Sector>, taken: set<nat>, e: Entry)
    requires DirOk(lo, hi, m, s0, size0, d0) && Tabled(lo, s0, d0, taken0, s, d, taken, e)
    requires forall c :: 0 <= c < DIR_BLOCKS && s0[c] != 0 ==> s0[c] in taken0
    requires e.fileType != 0 && NewName(m, e) && !Dotted(Key(e))
    ensures FirstWith(Chain(s, d), d, 12, e.ino) && Alone(d[Chain(s, d)[12]])
  {
    hide EntryBytes, Splice, Encode, Decode, LiveSlotsOk, NamesOk, FreeSlotsOk, Key, Slot, SlotBytes, CStr, Named,
      HasDot;
    var b := Decode(d[s[12]])[0];
    DecodeEncode([b] + seq(127, _ => 0));
    var c := Chain(s, d);
    assert c[12] == b;
    OnlyEntry(e);
    assert HasIno(c, d, 12, 0, e.ino);
    forall x: nat, j: nat | x < 12 ensures !HasIno(c, d, x, j, e.ino) {
      assert c[x] == s0[x];
      if HasIno(c, d, x, j, e.ino) {
        NamedKnown(lo, hi, m, s0, size0, d0, x, j);
      }
    }
    CountNamedOne(d[b], SLOTS, 0);
  }

  /** A block with nothing but one entry. */
  lemma OnlyEntry(e: Entry)
    requires |e.name| == NAME_LEN && e.fileType != 0 && !Dotted(Key(e))
    ensures var sec := Splice(Zeros(SECTOR_SIZE), 0, EntryBytes(e));
      && Slot(sec, 0) == e && Named(sec, 0) && !HasDot(sec)
      && forall j :: 1 <= j < SLOTS ==> Slot(sec, j) == NO_ENTRY && !Named(sec, j)
  {
    hide EntryBytes, EntryOf, Splice, Slot;
    var sec := Splice(Zeros(SECTOR_SIZE), 0, EntryBytes(e));
    forall j: nat | j < SLOTS ensures Slot(sec, j) == if j == 0 then e else NO_ENTRY {
      SlotWritten(Zeros(SECTOR_SIZE), 0, EntryBytes(e), j);
      EntryRoundTrip(e);
      ZeroSlot(Zeros(SECTOR_SIZE), j);
    }
    var s, d: seq<Sector> := seq(13, _ => 1), [sec, sec];
    assert HasSlot(s, d, 0, 0) && At(s, d, 0, 0) == e;
    NamedIs(s, d, 0, 0);
  }

  /** A directory whose sectors stay as they are stands for the same map. */
  lemma DirFrame(lo: nat, hi: nat, m: map<seq<byte>, Info>, s: seq<word>, size: nat, d: seq<Sector>, d': seq<Sector>)
    requires DirOk(lo, hi, m, s, size, d) && |d'| == |d|
    requires forall b :: 0 <= b < DIR_BLOCKS && s[b] != 0 ==> d'[s[b]] == d[s[b]]
    ensures DirOk(lo, hi, m, s, size, d')
  {
    hide Slot, Key;
    forall b: nat, i: nat ensures At(s, d', b, i) == At(s, d, b, i) {
    }
    SameListing(m, s, d, s, d');
  }

  lemma SameListing(m: map<seq<byte>, Info>, s: seq<word>, d: seq<Sector>, s': seq<word>, d': seq<Sector>)
    requires LiveSlotsOk(m, s, d) && NamesOk(m, s, d) && FreeSlotsOk(s, d) && s' == s
    requires forall b: nat, i: nat :: At(s', d', b, i) == At(s, d, b, i)
    ensures LiveSlotsOk(m, s', d') && NamesOk(m, s', d') && FreeSlotsOk(s', d')
  {
    hide At, Key;
    assert forall b: nat, i: nat :: Live(s', d', b, i) <==> Live(s, d, b, i);
    hide Live;
    forall name | name in m ensures SomeSlot(s', d', name) {
      assert SomeSlot(s, d, name);
      var b: nat, i: nat :| Live(s, d, b, i) && Key(At(s, d, b, i)) == name;
      assert Live(s', d', b, i);
    }
    forall b: nat | 0 < b < DIR_BLOCKS && |s| == 13 && s[b] != 0 ensures BlockUsed(s', d', b) {
      assert BlockUsed(s, d, b);
      var i: nat :| Live(s, d, b, i);
      assert Live(s', d', b, i);
    }
  }

  // ---------------------------------------------------------------- the guard of create and mkdir

  ghost predicate NameAt(s: seq<word>, d: seq<Sector>, b: nat, i: nat, name: seq<byte>) {
    Live(s, d, b, i) && Key(At(s, d, b, i)) == name
  }

  /** The directory has two entries of one name. */
  ghost predicate Twice(s: seq<word>, d: seq<Sector>, name: seq<byte>) {
    exists b: nat, i: nat, c: nat, j: nat :: NameAt(s, d, b, i, name) && NameAt(s, d, c, j, name) && (b != c || i != j)
  }

  lemma TwiceIff(lo: nat, hi: nat, m: map<seq<byte>, Info>, s0: seq<word>, size0: nat, d0: seq<Sector>,
                 taken0: set<nat>, s: seq<word>, d: seq<Sector>, taken: set<nat>, b: nat, i: nat, e: Entry)
    requires DirOk(lo, hi, m, s0, size0, d0) && Placed(s0, d0, taken0, s, d, taken, b, i, e)
    ensures Twice(s, d, Key(e)) <==> Key(e) in m
  {
    hide At, Key, HasSlot, DirBlocksOk, FreeSlotsOk, FullBefore;
    ElsewhereLive(s0, d0, s, d, b, i);
    hide Elsewhere, Live;
    assert NameAt(s, d, b, i, Key(e));
    if Key(e) in m {
      assert SomeSlot(s0, d0, Key(e));
      var c: nat, j: nat :| Live(s0, d0, c, j) && Key(At(s0, d0, c, j)) == Key(e);
      assert NameAt(s, d, c, j, Key(e)) && (c != b || j != i);
    }
    if Twice(s, d, Key(e)) {
      var c: nat, j: nat :| !(c == b && j == i) && NameAt(s, d, c, j, Key(e));
      assert EntryKnown(m, At(s0, d0, c, j));
    }
  }

  /** What sys_open and sys_mkdir do about a name: search, and add the entry when the search did not find it. A second
      entry of the name comes about exactly when the name has sixteen bytes, is there, and leads to an inode number
      whose low byte is not zero. */
  method AddUnlessFound(p: Partition, nd: Inode, name: seq<byte>, ino: word, fileType: word,
                        ghost m: map<seq<byte>, Info>)
    returns (found: bool, r: Outcome<bool>)
    requires p.Shape() && DirOk(p.dataLba, p.dataLba + p.dataCnt, m, nd.sectors, nd.size, p.disk[..])
    requires DirTaken(p, nd.sectors) && nd.size < 0x1000_0000 && !FullBefore(nd.sectors, p.disk[..], DIR_BLOCKS)
    requires 0 < |name| <= NAME_LEN && 0 !in name && fileType != 0
    modifies p.disk, p.blockMap.bits, p.blockArea, nd`size, nd`sectors
    ensures found <==> Findable(m, name)
    ensures found ==> r == Null && unchanged(p.disk) && unchanged(p.blockMap.bits) && unchanged(nd)
    ensures !found ==> r != Null
    ensures r == Halted ==>
      exists c :: 0 <= c < DIR_BLOCKS && old(nd.sectors)[c] == 0 && FullBefore(old(nd.sectors), old(p.disk[..]), c)
    ensures r.Done? ==>
      (Twice(nd.sectors, p.disk[..], name) <==> |name| == NAME_LEN && name in m && m[name].ino % 0x100 != 0)
  {
    hide DirOk, DirectBlocksOk, Placed, FullBefore, DirTaken, Key, Twice, NewEntry;
    DirectOnly(p.dataLba, p.dataLba + p.dataCnt, m, nd.sectors, nd.size, p.disk[..]);
    ghost var s0, d0, size0, taken0 := nd.sectors, p.disk[..], nd.size, p.Taken();
    var e;
    found, e := SearchName(p, nd, name, m);
    if found {
      return found, Null;
    }
    e := NewEntry(name, ino, fileType);
    EntryType(name, ino, fileType);
    ghost var b, i;
    r, b, i := SyncDirEntry(p, nd, e);
    if r.Done? {
      TwiceIff(p.dataLba, p.dataLba + p.dataCnt, m, s0, size0, d0, taken0, nd.sectors, p.disk[..], p.Taken(), b, i, e);
    }
  }

  lemma EntryType(name: seq<byte>, ino: word, fileType: word)
    requires |name| <= NAME_LEN && 0 !in name
    ensures NewEntry(name, ino, fileType).fileType == fileType
  {
  }

  lemma DirectOnly(lo: nat, hi: nat, m: map<seq<byte>, Info>, s: seq<word>, size: nat, d: seq<Sector>)
    requires DirOk(lo, hi, m, s, size, d)
    ensures DirectBlocksOk(lo, hi, s, d)
  {
  }
}
