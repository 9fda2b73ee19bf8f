/** Directory entries and the slots they lie in, and the finite map they stand for (fs/dir.h, fs/dir.c). */
module DirSlots {
  import opened Disks

  const ENTRY_SIZE: nat := 24      // sizeof(struct dir_entry)
  const SLOTS: nat := 21           // SECTOR_SIZE / dir_entry_size
  const NAME_LEN: nat := 16
  const DIR_BLOCKS: nat := 12
  const DOT: seq<byte> := [46]
  const DOT_DOT: seq<byte> := [46, 46]

  /** struct dir_entry; fileType 0 is FT_UNKNOWN, a free slot. */
  datatype Entry = Entry(name: seq<byte>, ino: word, fileType: word)

  /** A slot of zeros, or no slot at all. */
  const NO_ENTRY: Entry := Entry(Zeros(NAME_LEN), 0, 0)

  /** What a name is mapped to. */
  datatype Info = Info(ino: word, fileType: word)

  // ---------------------------------------------------------------- C strings

  /** The string a char pointer to these bytes stands for. */
  function CStr(bs: seq<byte>): (s: seq<byte>)
    ensures |s| <= |bs| && 0 !in s && s <= bs && (|s| < |bs| ==> bs[|s|] == 0)
  {
    if bs == [] || bs[0] == 0 then [] else [bs[0]] + CStr(bs[1..])
  }

  lemma {:induction false} CStrIs(bs: seq<byte>, s: seq<byte>)
    requires 0 !in s && s <= bs && (|s| == |bs| || bs[|s|] == 0)
    ensures CStr(bs) == s
  {
    if s == [] {
    } else {
      assert bs[0] == s[0] && s[0] in s;
      CStrIs(bs[1..], s[1..]);
    }
  }

  function Key(e: Entry): seq<byte> {
    CStr(e.name)
  }

  function EntryBytes(e: Entry): (bs: seq<byte>)
    requires |e.name| == NAME_LEN
    ensures |bs| == ENTRY_SIZE
  {
    e.name + BytesOf(e.ino) + BytesOf(e.fileType)
  }

  /** struct dir_entry as it lies on the disk: sixteen bytes of name, then the two numbers. */
  lemma EntryLayout(e: Entry)
    requires |e.name| == NAME_LEN
    ensures EntryBytes(e)[..16] == e.name
    ensures EntryBytes(e)[16..20] == BytesOf(e.ino) && EntryBytes(e)[20..24] == BytesOf(e.fileType)
  {
    hide BytesOf;
  }

  /** strcmp on an entry's name: a name of full length runs on into the inode number behind it,
      so it is matched exactly when that number's low byte is zero. */
  lemma MatchIff(e: Entry, name: seq<byte>)
    requires |e.name| == NAME_LEN && |name| <= NAME_LEN && 0 !in name
    ensures CStr(EntryBytes(e)) == name <==> Key(e) == name && (|name| < NAME_LEN || e.ino % 0x100 == 0)
  {
    var bs := EntryBytes(e);
    assert bs[..NAME_LEN] == e.name && bs[NAME_LEN] == e.ino % 0x100;
    if Key(e) == name && (|name| < NAME_LEN || e.ino % 0x100 == 0) {
      assert bs[|name|] == 0;
      assert name == e.name[..|name|] == bs[..|name|];
      CStrIs(bs, name);
    }
    if CStr(bs) == name {
      assert bs[|name|] == 0;
      assert name == bs[..|name|] == e.name[..|name|];
      CStrIs(e.name, name);
    }
  }

  /** create_dir_entry: the name padded with zeros; a longer name trips an assertion. */
  function NewEntry(name: seq<byte>, ino: word, fileType: word): (e: Entry)
    requires |name| <= NAME_LEN && 0 !in name
    ensures |e.name| == NAME_LEN && Key(e) == name && e.ino == ino && e.fileType == fileType
  {
    var padded := name + Zeros(NAME_LEN - |name|);
    CStrIs(padded, name);
    Entry(padded, ino, fileType)
  }

  // ---------------------------------------------------------------- slots of a sector

  function SlotBytes(sec: seq<byte>, i: nat): (bs: seq<byte>)
    requires i < SLOTS && |sec| == SECTOR_SIZE
    ensures |bs| == ENTRY_SIZE
  {
    sec[ENTRY_SIZE * i..ENTRY_SIZE * i + ENTRY_SIZE]
  }

  function EntryOf(bs: seq<byte>): (e: Entry)
    requires |bs| == ENTRY_SIZE
    ensures |e.name| == NAME_LEN
  {
    Entry(bs[..NAME_LEN], WordOf(bs[16], bs[17], bs[18], bs[19]), WordOf(bs[20], bs[21], bs[22], bs[23]))
  }

  function Slot(sec: seq<byte>, i: nat): (e: Entry)
    requires i < SLOTS && |sec| == SECTOR_SIZE
    ensures |e.name| == NAME_LEN
  {
    EntryOf(SlotBytes(sec, i))
  }

  lemma EntryRoundTrip(e: Entry)
    requires |e.name| == NAME_LEN
    ensures EntryOf(EntryBytes(e)) == e
  {
    WordBytes(e.ino);
    WordBytes(e.fileType);
  }

  lemma BytesRoundTrip(bs: seq<byte>)
    requires |bs| == ENTRY_SIZE
    ensures EntryBytes(EntryOf(bs)) == bs
  {
    BytesWord(bs[16], bs[17], bs[18], bs[19]);
    BytesWord(bs[20], bs[21], bs[22], bs[23]);
  }

  /** Writing one slot changes that slot's entry and no other. */
  lemma SlotWritten(sec: seq<byte>, i: nat, bs: seq<byte>, j: nat)
    requires i < SLOTS && j < SLOTS && |sec| == SECTOR_SIZE && |bs| == ENTRY_SIZE
    ensures Slot(Splice(sec, ENTRY_SIZE * i, bs), j) == if j == i then EntryOf(bs) else Slot(sec, j)
  {
    hide EntryOf;
    var sec' := Splice(sec, ENTRY_SIZE * i, bs);
    if j == i {
      assert SlotBytes(sec', j) == bs;
    } else {
      assert SlotBytes(sec', j) == SlotBytes(sec, j);
    }
  }

  lemma ZeroSlot(sec: seq<byte>, i: nat)
    requires i < SLOTS && |sec| == SECTOR_SIZE
    requires forall k :: ENTRY_SIZE * i <= k < ENTRY_SIZE * i + ENTRY_SIZE ==> sec[k] == 0
    ensures Slot(sec, i) == NO_ENTRY
  {
    assert SlotBytes(sec, i) == Zeros(ENTRY_SIZE);
    assert Zeros(ENTRY_SIZE)[..NAME_LEN] == Zeros(NAME_LEN);
  }

  // ---------------------------------------------------------------- slots of a directory

  predicate HasSlot(s: seq<word>, d: seq<Sector>, b: nat, i: nat) {
    |s| == 13 && b < DIR_BLOCKS && i < SLOTS && 0 != s[b] < |d|
  }

  function At(s: seq<word>, d: seq<Sector>, b: nat, i: nat): (e: Entry)
    ensures |e.name| == NAME_LEN
  {
    if HasSlot(s, d, b, i) then Slot(d[s[b]], i) else NO_ENTRY
  }

  predicate Live(s: seq<word>, d: seq<Sector>, b: nat, i: nat) {
    At(s, d, b, i).fileType != 0
  }

  predicate Dotted(name: seq<byte>) {
    name == DOT || name == DOT_DOT
  }

  /** The sectors of a directory: direct ones only, the first always there, all different. */
  ghost predicate DirBlocksOk(lo: nat, hi: nat, s: seq<word>, d: seq<Sector>) {
    DirectBlocksOk(lo, hi, s, d) && s[12] == 0 && s[0] != 0
  }

  /** The direct blocks, whatever else there is. */
  ghost predicate DirectBlocksOk(lo: nat, hi: nat, s: seq<word>, d: seq<Sector>) {
    && |s| == 13 && 0 < lo <= hi <= |d|
    && (forall b: nat :: 0 <= b < DIR_BLOCKS && s[b] != 0 ==> lo <= s[b] < hi)
    && (forall b: nat, c: nat :: 0 <= b < c < DIR_BLOCKS && s[b] != 0 ==> s[b] != s[c])
  }

  ghost predicate LiveSlotsOk(m: map<seq<byte>, Info>, s: seq<word>, d: seq<Sector>) {
    && (forall b: nat, i: nat :: Live(s, d, b, i) ==> EntryKnown(m, At(s, d, b, i)))
    && (forall b: nat, i: nat, c: nat, j: nat ::
          Live(s, d, b, i) && Live(s, d, c, j) && Key(At(s, d, b, i)) == Key(At(s, d, c, j)) ==>
          b == c && i == j)
    && (forall b: nat, i: nat :: Live(s, d, b, i) && Dotted(Key(At(s, d, b, i))) ==> b == 0)
  }

  predicate EntryKnown(m: map<seq<byte>, Info>, e: Entry) {
    Key(e) != [] && Key(e) in m && m[Key(e)] == Info(e.ino, e.fileType)
  }

  ghost predicate SomeSlot(s: seq<word>, d: seq<Sector>, name: seq<byte>) {
    exists b: nat, i: nat :: Live(s, d, b, i) && Key(At(s, d, b, i)) == name
  }

  /** Some entry of block `b` is live. */
  ghost predicate BlockUsed(s: seq<word>, d: seq<Sector>, b: nat) {
    exists i: nat :: Live(s, d, b, i)
  }

  ghost predicate NamesOk(m: map<seq<byte>, Info>, s: seq<word>, d: seq<Sector>) {
    && DOT in m && DOT_DOT in m
    && (forall name :: name in m ==> SomeSlot(s, d, name))
    && (forall x, y :: x in m && y in m && !Dotted(x) && !Dotted(y) && m[x].ino == m[y].ino ==> x == y)
  }

  /** Free slots are all zeros, and no block but the first is without an entry. */
  ghost predicate FreeSlotsOk(s: seq<word>, d: seq<Sector>) {
    && (forall b: nat, i: nat :: !Live(s, d, b, i) ==> At(s, d, b, i) == NO_ENTRY)
    && (forall b: nat :: 0 < b < DIR_BLOCKS && |s| == 13 && s[b] != 0 ==> BlockUsed(s, d, b))
  }

  /** The directory whose inode has these sectors and this size stands for the map `m`. */
  ghost predicate DirOk(lo: nat, hi: nat, m: map<seq<byte>, Info>, s: seq<word>, size: nat, d: seq<Sector>) {
    && DirBlocksOk(lo, hi, s, d) && LiveSlotsOk(m, s, d) && NamesOk(m, s, d) && FreeSlotsOk(s, d)
    && size == ENTRY_SIZE * |m|
  }

  // ---------------------------------------------------------------- one slot more, or one slot less

  /** All slots but (b, i) are the same before and after. */
  ghost predicate Elsewhere(s: seq<word>, d: seq<Sector>, s': seq<word>, d': seq<Sector>, b: nat, i: nat) {
    forall c: nat, j: nat :: !(c == b && j == i) ==> SameSlot(s, d, s', d', c, j)
  }

  ghost predicate SameSlot(s: seq<word>, d: seq<Sector>, s': seq<word>, d': seq<Sector>, c: nat, j: nat) {
    At(s', d', c, j) == At(s, d, c, j)
  }

  lemma ElsewhereLive(s: seq<word>, d: seq<Sector>, s': seq<word>, d': seq<Sector>, b: nat, i: nat)
    requires Elsewhere(s, d, s', d', b, i)
    ensures forall c: nat, j: nat :: !(c == b && j == i) ==>
      (Live(s', d', c, j) <==> Live(s, d, c, j)) && At(s', d', c, j) == At(s, d, c, j)
  {
    hide At;
    forall c: nat, j: nat | !(c == b && j == i)
      ensures (Live(s', d', c, j) <==> Live(s, d, c, j)) && At(s', d', c, j) == At(s, d, c, j)
    {
      assert SameSlot(s, d, s', d', c, j);
    }
  }

  /** A fresh name in a free slot is a fresh name in the map. */
  lemma SlotTaken(m: map<seq<byte>, Info>, s: seq<word>, d: seq<Sector>, s': seq<word>, d': seq<Sector>, b: nat, i: nat)
    requires LiveSlotsOk(m, s, d) && NamesOk(m, s, d) && Elsewhere(s, d, s', d', b, i)
    requires !Live(s, d, b, i) && Live(s', d', b, i)
    requires var e := At(s', d', b, i);
      && Key(e) !in m && Key(e) != [] && forall x :: x in m && !Dotted(x) ==> m[x].ino != e.ino
    ensures var e := At(s', d', b, i); var m' := m[Key(e) := Info(e.ino, e.fileType)];
      LiveSlotsOk(m', s', d') && NamesOk(m', s', d') && |m'| == |m| + 1
  {
    hide HasSlot, At, Key, Live, Elsewhere;
    ElsewhereLive(s, d, s', d', b, i);
    var e := At(s', d', b, i);
    var m' := m[Key(e) := Info(e.ino, e.fileType)];
    assert m'.Keys == m.Keys + {Key(e)};
    forall c: nat, j: nat | Live(s', d', c, j)
      ensures EntryKnown(m', At(s', d', c, j)) && (Key(At(s', d', c, j)) == Key(e) <==> (c == b && j == i))
    {
      assert !(c == b && j == i) ==> EntryKnown(m, At(s, d, c, j));
    }
    forall c: nat, j: nat, f: nat, k: nat |
      Live(s', d', c, j) && Live(s', d', f, k) && Key(At(s', d', c, j)) == Key(At(s', d', f, k))
      ensures c == f && j == k
    {
    }
    forall c: nat, j: nat | Live(s', d', c, j) && Dotted(Key(At(s', d', c, j))) ensures c == 0 {
      assert !(c == b && j == i);
    }
    forall name | name in m' ensures SomeSlot(s', d', name) {
      if name != Key(e) {
        assert SomeSlot(s, d, name);
        var c: nat, j: nat :| Live(s, d, c, j) && Key(At(s, d, c, j)) == name;
        assert Live(s', d', c, j);
      }
    }
  }

  /** A slot given up is a name gone from the map. */
  lemma SlotGiven(m: map<seq<byte>, Info>, s: seq<word>, d: seq<Sector>, s': seq<word>, d': seq<Sector>, b: nat, i: nat)
    requires LiveSlotsOk(m, s, d) && NamesOk(m, s, d) && Elsewhere(s, d, s', d', b, i)
    requires Live(s, d, b, i) && !Live(s', d', b, i) && !Dotted(Key(At(s, d, b, i)))
    ensures var name := Key(At(s, d, b, i));
      name in m && LiveSlotsOk(m - {name}, s', d') && NamesOk(m - {name}, s', d') && |m - {name}| == |m| - 1
  {
    hide HasSlot, At, Key, Live, Elsewhere;
    ElsewhereLive(s, d, s', d', b, i);
    var gone := Key(At(s, d, b, i));
    var m' := m - {gone};
    assert EntryKnown(m, At(s, d, b, i));
    assert m'.Keys == m.Keys - {gone} && |m| == |m.Keys| && |m'| == |m'.Keys|;
    SlotGivenLive(m, s, d, s', d', b, i);
    forall name | name in m' ensures SomeSlot(s', d', name) {
      assert SomeSlot(s, d, name);
      var c: nat, j: nat :| Live(s, d, c, j) && Key(At(s, d, c, j)) == name;
      assert Live(s', d', c, j);
    }
  }

  lemma SlotGivenLive(m: map<seq<byte>, Info>, s: seq<word>, d: seq<Sector>, s': seq<word>, d': seq<Sector>, b: nat,
                      i: nat)
    requires LiveSlotsOk(m, s, d) && Elsewhere(s, d, s', d', b, i)
    requires Live(s, d, b, i) && !Live(s', d', b, i)
    ensures LiveSlotsOk(m - {Key(At(s, d, b, i))}, s', d')
  {
    hide HasSlot, At, Key, Live, Elsewhere;
    ElsewhereLive(s, d, s', d', b, i);
    var gone := Key(At(s, d, b, i));
    forall c: nat, j: nat | Live(s', d', c, j)
      ensures EntryKnown(m - {gone}, At(s', d', c, j)) && Live(s, d, c, j) && At(s', d', c, j) == At(s, d, c, j)
    {
      assert EntryKnown(m, At(s, d, c, j));
    }
  }

  // ---------------------------------------------------------------- how large a directory gets

  function Members(q: seq<seq<byte>>): (r: set<seq<byte>>)
    ensures |r| <= |q| && forall x :: x in r <==> x in q
  {
    if q == [] then {} else {q[0]} + Members(q[1..])
  }

  function KeyAt(s: seq<word>, d: seq<Sector>, k: nat): seq<byte> {
    Key(At(s, d, k / SLOTS, k % SLOTS))
  }

  /** Twelve blocks hold 252 entries at most. */
  lemma DirSmall(lo: nat, hi: nat, m: map<seq<byte>, Info>, s: seq<word>, size: nat, d: seq<Sector>)
    requires DirOk(lo, hi, m, s, size, d)
    ensures size <= ENTRY_SIZE * DIR_BLOCKS * SLOTS
  {
    hide Key, At;
    var n := DIR_BLOCKS * SLOTS;
    var q := seq(n, k requires 0 <= k < n => KeyAt(s, d, k));
    forall name | name in m ensures name in Members(q) {
      assert SomeSlot(s, d, name);
      var b: nat, i: nat :| Live(s, d, b, i) && Key(At(s, d, b, i)) == name;
      LiveInside(s, d, b, i);
      var k := b * SLOTS + i;
      assert k / SLOTS == b && k % SLOTS == i && q[k] == name;
    }
    assert m.Keys <= Members(q);
    Subset(m.Keys, Members(q));
  }

  lemma LiveInside(s: seq<word>, d: seq<Sector>, b: nat, i: nat)
    requires Live(s, d, b, i)
    ensures HasSlot(s, d, b, i)
  {
  }

  lemma {:induction false} Subset(a: set<seq<byte>>, b: set<seq<byte>>)
    requires a <= b
    ensures |a| <= |b|
  {
    if a == {} {
    } else {
      var x :| x in a;
      Subset(a - {x}, b - {x});
    }
  }
}
