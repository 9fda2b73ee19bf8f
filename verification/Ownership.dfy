/** Which inode owns which block: what create, append, mkdir and unlink keep true of a whole partition. */
module Ownership {
  import opened Disks
  import opened InodeTable
  import opened FileBlocks
  import opened Files
  import opened DirSlots
  import opened Directories

  const FT_REGULAR: nat := 1
  const FT_DIRECTORY: nat := 2

  /** An inode in use: a file, or a directory and the map it stands for. */
  datatype Node =
    | FileNode(size: word, sectors: seq<word>)
    | DirNode(size: word, sectors: seq<word>, names: map<seq<byte>, Info>)

  ghost predicate NodeOk(lo: nat, hi: nat, x: Node, d: seq<Sector>) {
    match x
    case FileNode(size, sectors) => FileOk(lo, hi, sectors, size, d)
    case DirNode(size, sectors, names) => DirOk(lo, hi, names, sectors, size, d)
  }

  ghost function Owned(x: Node, d: seq<Sector>): set<nat> {
    if |x.sectors| == 13 then Footprint(x.sectors, d) else {}
  }

  /** The blocks of each inode. */
  ghost function OwnMap(nodes: map<nat, Node>, d: seq<Sector>): map<nat, set<nat>> {
    map i | i in nodes :: Owned(nodes[i], d)
  }

  ghost predicate OwnedBySome(own: map<nat, set<nat>>, b: nat) {
    exists i :: i in own && b in own[i]
  }

  /** No block has two owners, and the blocks that are taken are exactly the ones that have one. */
  ghost predicate Owns(own: map<nat, set<nat>>, taken: set<nat>, lo: nat, hi: nat) {
    && (forall i, j :: i in own && j in own && i != j ==> own[i] !! own[j])
    && (forall i, b :: i in own && b in own[i] ==> lo <= b < hi)
    && (forall b :: lo <= b < hi ==> (b in taken <==> OwnedBySome(own, b)))
  }

  /** An inode comes, or takes more blocks, all of them free before. */
  lemma OwnsMore(own: map<nat, set<nat>>, taken: set<nat>, lo: nat, hi: nat, k: nat, all: set<nat>, taken': set<nat>)
    requires Owns(own, taken, lo, hi) && (forall b :: b in all ==> lo <= b < hi)
    requires taken' == taken + all
    requires if k in own then own[k] <= all && (all - own[k]) !! taken else all !! taken
    ensures Owns(own[k := all], taken', lo, hi)
  {
    var own' := own[k := all];
    forall i, b | i in own && i != k && b in own[i] ensures b !in all {
      assert OwnedBySome(own, b) && b in taken;
    }
    forall b: nat | lo <= b < hi ensures b in taken' <==> OwnedBySome(own', b) {
      if b in all {
        assert b in own'[k];
      } else if b in taken {
        var i :| i in own && b in own[i];
        assert b in own'[i];
      }
      if OwnedBySome(own', b) {
        var i :| i in own' && b in own'[i];
        assert i != k ==> b in own[i] && OwnedBySome(own, b);
      }
    }
  }

  /** An inode gives blocks back. */
  lemma OwnsFewer(own: map<nat, set<nat>>, taken: set<nat>, lo: nat, hi: nat, k: nat, rest: set<nat>, taken': set<nat>)
    requires Owns(own, taken, lo, hi) && k in own && rest <= own[k] && taken' == taken - (own[k] - rest)
    ensures Owns(own[k := rest], taken', lo, hi)
  {
    var own' := own[k := rest];
    forall b: nat | lo <= b < hi ensures b in taken' <==> OwnedBySome(own', b) {
      if b in taken' {
        var i :| i in own && b in own[i];
        assert b in own'[i];
      }
      if OwnedBySome(own', b) {
        var i :| i in own' && b in own'[i];
        assert b in own[i] && OwnedBySome(own, b);
      }
    }
  }

  /** An inode goes, with all its blocks. */
  lemma OwnsGone(own: map<nat, set<nat>>, taken: set<nat>, lo: nat, hi: nat, k: nat, taken': set<nat>)
    requires Owns(own, taken, lo, hi) && k in own && taken' == taken - own[k]
    ensures Owns(own - {k}, taken', lo, hi)
  {
    var own' := own - {k};
    forall b: nat | lo <= b < hi ensures b in taken' <==> OwnedBySome(own', b) {
      if b in taken' {
        var i :| i in own && b in own[i];
        assert i in own' && b in own'[i];
      }
      if OwnedBySome(own', b) {
        var i :| i in own' && b in own'[i];
        assert b in own[i] && OwnedBySome(own, b);
      }
    }
  }

  // ---------------------------------------------------------------- names

  /** A name leads to an inode in use, of the kind it says. */
  predicate LeadsTo(nodes: map<nat, Node>, info: Info) {
    info.ino in nodes && (info.fileType == FT_DIRECTORY <==> nodes[info.ino].DirNode?)
  }

  predicate HasName(nodes: map<nat, Node>, k: nat, x: seq<byte>) {
    k in nodes && nodes[k].DirNode? && x in nodes[k].names && !Dotted(x)
  }

  /** What the name leads to. */
  function Goal(nodes: map<nat, Node>, k: nat, x: seq<byte>): Info {
    if HasName(nodes, k, x) then nodes[k].names[x] else Info(0, 0)
  }

  /** Names lead to inodes in use, and every inode but the root has exactly one in the whole tree. */
  ghost predicate Linked(nodes: map<nat, Node>) {
    AllLead(nodes) && OneName(nodes) && AllNamed(nodes) && AllDotsOk(nodes)
  }

  ghost predicate AllLead(nodes: map<nat, Node>) {
    forall k, x :: HasName(nodes, k, x) ==> LeadsTo(nodes, Goal(nodes, k, x)) && Goal(nodes, k, x).ino != 0
  }

  ghost predicate OneName(nodes: map<nat, Node>) {
    forall k, x, l, y ::
      HasName(nodes, k, x) && HasName(nodes, l, y) && Goal(nodes, k, x).ino == Goal(nodes, l, y).ino ==>
      k == l && x == y
  }

  ghost predicate AllNamed(nodes: map<nat, Node>) {
    forall i :: i in nodes && i != 0 ==> NamedSomewhere(nodes, i)
  }

  ghost predicate NamedSomewhere(nodes: map<nat, Node>, i: nat) {
    exists k, x :: HasName(nodes, k, x) && Goal(nodes, k, x).ino == i
  }

  ghost predicate AllDotsOk(nodes: map<nat, Node>) {
    forall k :: k in nodes ==> DotsOk(nodes[k])
  }

  /** The dot entries lead to directories. */
  ghost predicate DotsOk(x: Node) {
    x.DirNode? ==> forall name :: name in x.names && Dotted(name) ==> x.names[name].fileType == FT_DIRECTORY
  }

  /** `nodes'` has the names of `nodes` but the one. */
  ghost predicate NamesLess(nodes: map<nat, Node>, nodes': map<nat, Node>, k: nat, name: seq<byte>) {
    && (forall l, y :: HasName(nodes', l, y) <==> HasName(nodes, l, y) && !(l == k && y == name))
    && (forall l, y :: HasName(nodes', l, y) ==> Goal(nodes', l, y) == Goal(nodes, l, y))
  }

  /** A name goes together with the file it leads to. */
  lemma LinkedUnlink(nodes: map<nat, Node>, k: nat, name: seq<byte>, x: Node)
    requires Linked(nodes) && HasName(nodes, k, name) && nodes[Goal(nodes, k, name).ino].FileNode?
    requires x.DirNode? && x.names == nodes[k].names - {name}
    ensures Linked(nodes[k := x] - {Goal(nodes, k, name).ino as nat})
  {
    var j: nat := Goal(nodes, k, name).ino;
    var nodes' := nodes[k := x] - {j};
    UnlinkNames(nodes, k, name, x, j);
    hide HasName, Goal, NamesLess;
    LessLead(nodes, nodes', k, name, j);
    LessNamed(nodes, nodes', k, name, j);
  }

  lemma UnlinkNames(nodes: map<nat, Node>, k: nat, name: seq<byte>, x: Node, j: nat)
    requires k in nodes && nodes[k].DirNode? && j in nodes && nodes[j].FileNode? && AllDotsOk(nodes)
    requires x.DirNode? && x.names == nodes[k].names - {name}
    ensures NamesLess(nodes, nodes[k := x] - {j}, k, name) && AllDotsOk(nodes[k := x] - {j})
  {
    hide Dotted;
    var nodes' := nodes[k := x] - {j};
    assert DotsOk(nodes[k]);
    forall l | l in nodes' ensures DotsOk(nodes'[l]) {
      assert l != k ==> DotsOk(nodes[l]);
    }
  }

  lemma LessLead(nodes: map<nat, Node>, nodes': map<nat, Node>, k: nat, name: seq<byte>, j: nat)
    requires AllLead(nodes) && OneName(nodes) && NamesLess(nodes, nodes', k, name)
    requires HasName(nodes, k, name) && Goal(nodes, k, name).ino == j && nodes'.Keys == nodes.Keys - {j}
    requires forall l :: l in nodes' ==> nodes'[l].DirNode? == nodes[l].DirNode?
    ensures AllLead(nodes') && OneName(nodes')
  {
    hide HasName, Goal;
    forall l, y | HasName(nodes', l, y) ensures LeadsTo(nodes', Goal(nodes', l, y)) {
      assert LeadsTo(nodes, Goal(nodes, l, y)) && Goal(nodes, l, y).ino as nat != j;
    }
  }

  lemma LessNamed(nodes: map<nat, Node>, nodes': map<nat, Node>, k: nat, name: seq<byte>, j: nat)
    requires AllNamed(nodes) && NamesLess(nodes, nodes', k, name)
    requires HasName(nodes, k, name) && Goal(nodes, k, name).ino == j && nodes'.Keys == nodes.Keys - {j}
    ensures AllNamed(nodes')
  {
    hide HasName, Goal;
    forall i | i in nodes' && i != 0 ensures NamedSomewhere(nodes', i) {
      assert NamedSomewhere(nodes, i);
      var l, y :| HasName(nodes, l, y) && Goal(nodes, l, y).ino == i;
      assert HasName(nodes', l, y);
    }
  }

  /** `nodes'` has the names of `nodes` and one more. */
  ghost predicate NamesMore(nodes: map<nat, Node>, nodes': map<nat, Node>, k: nat, name: seq<byte>) {
    && (forall l, y :: HasName(nodes', l, y) <==> HasName(nodes, l, y) || (l == k && y == name))
    && (forall l, y :: HasName(nodes, l, y) ==> Goal(nodes', l, y) == Goal(nodes, l, y))
  }

  /** A new inode comes together with its name. */
  lemma LinkedCreate(nodes: map<nat, Node>, k: nat, name: seq<byte>, j: word, fileType: word, x: Node, y: Node)
    requires Linked(nodes) && k in nodes && nodes[k].DirNode? && name !in nodes[k].names && !Dotted(name)
    requires j as nat !in nodes && j != 0
    requires x.DirNode? && x.names == nodes[k].names[name := Info(j, fileType)]
    requires y.DirNode? <==> fileType == FT_DIRECTORY
    requires DotsOk(y) && (y.DirNode? ==> forall z :: z in y.names ==> Dotted(z))
    ensures Linked(nodes[k := x][j as nat := y])
  {
    var nodes' := nodes[k := x][j as nat := y];
    CreateNames(nodes, k, name, j, fileType, x, y);
    assert !HasName(nodes, k, name);
    hide HasName, Goal, NamesMore;
    MoreLead(nodes, nodes', k, name, j);
    MoreNamed(nodes, nodes', k, name, j);
  }

  lemma CreateNames(nodes: map<nat, Node>, k: nat, name: seq<byte>, j: word, fileType: word, x: Node, y: Node)
    requires k in nodes && nodes[k].DirNode? && name !in nodes[k].names && !Dotted(name) && AllDotsOk(nodes)
    requires j as nat !in nodes
    requires x.DirNode? && x.names == nodes[k].names[name := Info(j, fileType)]
    requires DotsOk(y) && (y.DirNode? ==> forall z :: z in y.names ==> Dotted(z))
    ensures var nodes' := nodes[k := x][j as nat := y];
      NamesMore(nodes, nodes', k, name) && AllDotsOk(nodes') && Goal(nodes', k, name) == Info(j, fileType)
  {
    hide Dotted;
    var nodes' := nodes[k := x][j as nat := y];
    assert DotsOk(nodes[k]);
    forall l | l in nodes' ensures DotsOk(nodes'[l]) {
      assert l != k && l != j as nat ==> DotsOk(nodes[l]);
    }
  }

  lemma MoreLead(nodes: map<nat, Node>, nodes': map<nat, Node>, k: nat, name: seq<byte>, j: nat)
    requires AllLead(nodes) && OneName(nodes) && NamesMore(nodes, nodes', k, name) && !HasName(nodes, k, name)
    requires Goal(nodes', k, name).ino == j && LeadsTo(nodes', Goal(nodes', k, name)) && j != 0
    requires nodes'.Keys == nodes.Keys + {j} && j !in nodes
    requires forall l :: l in nodes ==> nodes'[l].DirNode? == nodes[l].DirNode?
    ensures AllLead(nodes') && OneName(nodes')
  {
    hide HasName, Goal;
    forall l, y | HasName(nodes, l, y)
      ensures LeadsTo(nodes', Goal(nodes', l, y)) && Goal(nodes', l, y).ino as nat != j
    {
      assert LeadsTo(nodes, Goal(nodes, l, y));
    }
  }

  lemma MoreNamed(nodes: map<nat, Node>, nodes': map<nat, Node>, k: nat, name: seq<byte>, j: nat)
    requires AllNamed(nodes) && NamesMore(nodes, nodes', k, name)
    requires Goal(nodes', k, name).ino == j && nodes'.Keys == nodes.Keys + {j}
    ensures AllNamed(nodes')
  {
    hide HasName, Goal;
    assert HasName(nodes', k, name);
    forall i | i in nodes' && i != 0 ensures NamedSomewhere(nodes', i) {
      if i != j {
        assert NamedSomewhere(nodes, i);
        var l, y :| HasName(nodes, l, y) && Goal(nodes, l, y).ino == i;
        assert HasName(nodes', l, y);
      }
    }
  }

  /** Nothing about names changes when an inode keeps its kind and its names. */
  lemma LinkedSame(nodes: map<nat, Node>, k: nat, x: Node)
    requires Linked(nodes) && k in nodes && x.DirNode? == nodes[k].DirNode?
    requires x.DirNode? ==> x.names == nodes[k].names
    ensures Linked(nodes[k := x])
  {
    SameNames(nodes, k, x);
    hide HasName, Goal, DotsOk, NamesSame;
    SameLead(nodes, nodes[k := x]);
    SameNamed(nodes, nodes[k := x]);
  }

  ghost predicate NamesSame(nodes: map<nat, Node>, nodes': map<nat, Node>) {
    && (forall l, y :: HasName(nodes', l, y) <==> HasName(nodes, l, y))
    && (forall l, y :: Goal(nodes', l, y) == Goal(nodes, l, y))
  }

  lemma SameLead(nodes: map<nat, Node>, nodes': map<nat, Node>)
    requires AllLead(nodes) && OneName(nodes) && NamesSame(nodes, nodes') && nodes'.Keys == nodes.Keys
    requires forall l :: l in nodes ==> nodes'[l].DirNode? == nodes[l].DirNode?
    ensures AllLead(nodes') && OneName(nodes')
  {
    hide HasName, Goal;
    forall l, y | HasName(nodes', l, y) ensures LeadsTo(nodes', Goal(nodes', l, y)) {
      assert LeadsTo(nodes, Goal(nodes, l, y));
    }
  }

  lemma SameNamed(nodes: map<nat, Node>, nodes': map<nat, Node>)
    requires AllNamed(nodes) && NamesSame(nodes, nodes') && nodes'.Keys == nodes.Keys
    ensures AllNamed(nodes')
  {
    hide HasName, Goal;
    forall i | i in nodes' && i != 0 ensures NamedSomewhere(nodes', i) {
      assert NamedSomewhere(nodes, i);
      var l, y :| HasName(nodes, l, y) && Goal(nodes, l, y).ino == i;
      assert HasName(nodes', l, y);
    }
  }

  lemma SameNames(nodes: map<nat, Node>, k: nat, x: Node)
    requires k in nodes && x.DirNode? == nodes[k].DirNode? && (x.DirNode? ==> x.names == nodes[k].names)
    requires AllDotsOk(nodes)
    ensures NamesSame(nodes, nodes[k := x]) && AllDotsOk(nodes[k := x])
  {
    hide Dotted;
    assert DotsOk(nodes[k]);
    assert forall l :: l in nodes && l != k ==> DotsOk(nodes[l]);
  }

  // ---------------------------------------------------------------- the whole partition

  /** The record inode_sync writes for inode `i`. */
  function RecordOf(i: word, x: Node): Record {
    Record(i, x.size, 0, 0, x.sectors, 0, 0)
  }

  /** Every inode in use is well-formed and stored in its place, and every block has its one owner;
      block 0 is the root's. */
  ghost predicate Consistent(nodes: map<nat, Node>, d: seq<Sector>, taken: set<nat>, lo: nat, hi: nat, t: nat) {
    && 0 < t && t + TABLE_SECTS <= lo <= hi == |d|
    && (forall i :: i in nodes ==>
          i < 0x100 && NodeOk(lo, hi, nodes[i], d) && RecordAt(d, t, i) == RecordOf(i, nodes[i]))
    && Owns(OwnMap(nodes, d), taken, lo, hi)
    && 0 in nodes && nodes[0].DirNode? && |nodes[0].sectors| == 13 && nodes[0].sectors[0] == lo
  }

  /** What an inode holds: a file's bytes, or a directory's map. */
  ghost function Holds(x: Node, d: seq<Sector>): (seq<byte>, map<seq<byte>, Info>) {
    match x
    case FileNode(size, sectors) => (if |sectors| == 13 then Content(sectors, size, d) else [], map[])
    case DirNode(_, _, names) => ([], names)
  }

  /** The inode owns what it owned and holds what it held. */
  ghost predicate Undisturbed(x: Node, d: seq<Sector>, d': seq<Sector>) {
    Owned(x, d') == Owned(x, d) && Holds(x, d') == Holds(x, d)
  }

  lemma OwnedRange(lo: nat, hi: nat, x: Node, d: seq<Sector>)
    requires NodeOk(lo, hi, x, d)
    ensures |x.sectors| == 13 && forall b :: b in Owned(x, d) ==> lo <= b < hi
  {
    match x {
      case FileNode(size, sectors) => FootprintRange(lo, hi, sectors, d, Count(sectors, size));
      case DirNode(_, sectors, _) => DirFootprint(lo, hi, sectors, d);
    }
  }

  /** A directory owns its direct blocks. */
  lemma DirFootprint(lo: nat, hi: nat, s: seq<word>, d: seq<Sector>)
    requires DirBlocksOk(lo, hi, s, d)
    ensures forall b :: b in Footprint(s, d) <==> exists c :: 0 <= c < DIR_BLOCKS && s[c] == b && b != 0
    ensures forall b :: b in Footprint(s, d) ==> lo <= b < hi
  {
    var c := Chain(s, d);
    assert forall i :: 0 <= i < DIRECT ==> c[i] == s[i];
    assert forall i :: DIRECT <= i < MAX_BLOCKS ==> c[i] == 0;
    forall b | b in Footprint(s, d) ensures exists i :: 0 <= i < DIR_BLOCKS && s[i] == b && b != 0 {
      var i :| 0 <= i < MAX_BLOCKS && c[i] == b;
      assert i < DIR_BLOCKS;
    }
    forall b: nat, i | 0 <= i < DIR_BLOCKS && s[i] == b && b != 0 ensures b in Footprint(s, d) {
      assert c[i] == b;
    }
  }

  /** An inode none of whose blocks is written stays as it is. */
  lemma NodeFrame(lo: nat, hi: nat, x: Node, d: seq<Sector>, d': seq<Sector>)
    requires NodeOk(lo, hi, x, d) && |d'| == |d| && forall b :: b in Owned(x, d) ==> d'[b] == d[b]
    ensures NodeOk(lo, hi, x, d') && Owned(x, d') == Owned(x, d) && Holds(x, d') == Holds(x, d)
  {
    hide Mapped, Chain, Content, LiveSlotsOk, NamesOk, FreeSlotsOk, Footprint;
    match x {
      case FileNode(size, sectors) => FileFrame(lo, hi, sectors, size, d, d');
      case DirNode(size, sectors, names) =>
        DirFootprint(lo, hi, sectors, d);
        DirFrame(lo, hi, names, sectors, size, d, d');
        ChainFrame(sectors, d, d');
    }
  }

  /** One inode came or changed and the others were left alone: the partition is consistent with it. */
  lemma NodeChanged(nodes: map<nat, Node>, d: seq<Sector>, taken: set<nat>, lo: nat, hi: nat, t: nat, k: nat, x: Node,
                    d': seq<Sector>, taken': set<nat>)
    requires Consistent(nodes, d, taken, lo, hi, t) && k < 0x100 && NodeOk(lo, hi, x, d')
    requires OnlyRecord(d, d', t, lo, k, RecordOf(k, x))
    requires Owns(OwnMap(nodes, d)[k := Owned(x, d')], taken', lo, hi)
    requires forall b :: lo <= b < |d| && b !in Owned(x, d') && !(k in nodes && b in Owned(nodes[k], d)) ==>
      d'[b] == d[b]
    requires k == 0 ==> x.DirNode? && |x.sectors| == 13 && x.sectors[0] == lo
    ensures Consistent(nodes[k := x], d', taken', lo, hi, t)
    ensures forall i :: i in nodes && i != k ==> Undisturbed(nodes[i], d, d')
  {
    hide NodeOk, Owned, Holds, RecordAt, RecordOf;
    var own, own' := OwnMap(nodes, d), OwnMap(nodes, d)[k := Owned(x, d')];
    forall i | i in nodes && i != k
      ensures NodeOk(lo, hi, nodes[i], d') && Owned(nodes[i], d') == Owned(nodes[i], d)
      ensures Holds(nodes[i], d') == Holds(nodes[i], d)
    {
      OwnedRange(lo, hi, nodes[i], d);
      assert own[i] == own'[i] && own'[i] !! own'[k] && (k in nodes ==> own[i] !! own[k]);
      NodeFrame(lo, hi, nodes[i], d, d');
    }
    assert OwnMap(nodes[k := x], d') == own';
  }

  /** An inode went and its record was cleared: the partition is consistent without it. */
  lemma NodeGone(nodes: map<nat, Node>, d: seq<Sector>, taken: set<nat>, lo: nat, hi: nat, t: nat, k: nat, rec: Record,
                 d': seq<Sector>, taken': set<nat>)
    requires Consistent(nodes, d, taken, lo, hi, t) && k in nodes && k != 0
    requires OnlyRecord(d, d', t, lo, k, rec) && taken' == taken - Owned(nodes[k], d)
    requires forall b :: lo <= b < |d| ==> d'[b] == d[b]
    ensures Consistent(nodes - {k}, d', taken', lo, hi, t)
    ensures forall i :: i in nodes && i != k ==> Undisturbed(nodes[i], d, d')
  {
    hide NodeOk, Owned, Holds, RecordAt, RecordOf;
    OwnsGone(OwnMap(nodes, d), taken, lo, hi, k, taken');
    forall i | i in nodes && i != k
      ensures NodeOk(lo, hi, nodes[i], d') && Owned(nodes[i], d') == Owned(nodes[i], d)
      ensures Holds(nodes[i], d') == Holds(nodes[i], d)
    {
      OwnedRange(lo, hi, nodes[i], d);
      NodeFrame(lo, hi, nodes[i], d, d');
    }
    assert OwnMap(nodes - {k}, d') == OwnMap(nodes, d) - {k};
  }

  // ---------------------------------------------------------------- what it means

  /** No block belongs to two inodes. */
  lemma OneOwner(nodes: map<nat, Node>, d: seq<Sector>, taken: set<nat>, lo: nat, hi: nat, t: nat, i: nat, j: nat,
                 b: nat)
    requires Consistent(nodes, d, taken, lo, hi, t) && i in nodes && j in nodes && b in Owned(nodes[i], d)
    requires b in Owned(nodes[j], d)
    ensures i == j && b in taken
  {
    hide Owned, NodeOk, RecordAt, RecordOf;
    var own := OwnMap(nodes, d);
    assert b in own[i] && b in own[j] && OwnedBySome(own, b);
  }

  /** Every data block that is taken is some inode's, and the first one is the root's. */
  lemma NoLostBlock(nodes: map<nat, Node>, d: seq<Sector>, taken: set<nat>, lo: nat, hi: nat, t: nat, b: nat)
    requires Consistent(nodes, d, taken, lo, hi, t) && lo <= b < hi
    ensures b in taken <==> exists i :: i in nodes && b in Owned(nodes[i], d)
    ensures lo in Owned(nodes[0], d)
  {
    hide Owned, NodeOk, RecordAt, RecordOf;
    var own := OwnMap(nodes, d);
    if b in taken {
      assert OwnedBySome(own, b);
      var i :| i in own && b in own[i];
      assert b in Owned(nodes[i], d);
    }
    forall i | i in nodes && b in Owned(nodes[i], d) ensures b in taken {
      assert b in own[i] && OwnedBySome(own, b);
    }
    RootBlock(lo, hi, nodes[0], d);
  }

  lemma RootBlock(lo: nat, hi: nat, x: Node, d: seq<Sector>)
    requires NodeOk(lo, hi, x, d) && x.DirNode? && |x.sectors| == 13 && x.sectors[0] == lo
    ensures lo in Owned(x, d)
  {
    DirFootprint(lo, hi, x.sectors, d);
  }
}
