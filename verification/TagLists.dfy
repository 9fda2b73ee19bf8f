/** A family of lists that one kind of embedded list_elem can be on, kept apart from each other. */
module TagLists {
  import opened IntrusiveList

  /** What each list stands for. */
  type Contents<N> = map<N, seq<Elem>>

  /** Every node of list `n` is one of `cells`, and its home is that list. */
  ghost predicate AtHome<N>(s: seq<Elem>, cells: set<Elem>, home: map<Elem, N>, n: N) {
    forall x :: x in s ==> x in cells && x in home && home[x] == n
  }

  /** All the lists are lists made of `cells`, and as a node has one home no two of them share one. */
  ghost predicate ListsOk<N>(at: map<N, List>, cells: set<Elem>, home: map<Elem, N>)
    reads at.Values, cells
  {
    forall n :: n in at ==> AtHome(at[n].Nodes(), cells, home, n) && at[n].Valid()
  }

  /** `x` is a node of no list. */
  ghost predicate Off<N>(all: Contents<N>, ends: set<Elem>, x: Elem) {
    x !in ends && forall n :: n in all ==> x !in all[n]
  }

  /** What the nodes of a list are. */
  lemma NodesAre(l: List)
    ensures forall x :: x in l.Nodes() <==> x == l.head || x in l.elems || x == l.tail
    ensures l.head in l.Nodes() && l.tail in l.Nodes()
    ensures forall k :: 0 <= k < |l.elems| + 2 ==> l.Node(k) in l.Nodes()
  {
    assert l.Nodes()[0] == l.head && l.Nodes()[|l.elems| + 1] == l.tail;
    forall x | x in l.elems ensures x in l.Nodes() {
      var i :| 0 <= i < |l.elems| && l.elems[i] == x;
      assert l.Nodes()[i + 1] == x;
    }
  }

  lemma FreshNodes(l: List)
    requires l.elems == []
    ensures forall x :: x in l.Nodes() <==> x == l.head || x == l.tail
  {
    assert l.Nodes() == [l.head, l.tail];
  }

  /** list_init of one more list. */
  method AddList<N(==)>(at: map<N, List>, ghost cells: set<Elem>, ghost home: map<Elem, N>, n: N)
    returns (at': map<N, List>, ghost cells': set<Elem>, ghost home': map<Elem, N>)
    requires ListsOk(at, cells, home) && n !in at
    ensures n in at' && at' == at[n := at'[n]] && fresh(at'[n]) && at'[n].elems == []
    ensures cells <= cells' && fresh(cells' - cells) && ListsOk(at', cells', home')
  {
    hide List.Valid, AtHome;
    var l := new List();
    FreshNodes(l);
    at' := at[n := l];
    cells' := cells + {l.head, l.tail};
    home' := home[l.head := n][l.tail := n];
    forall m | m in at ensures AtHome(at[m].Nodes(), cells', home', m) {
      StillHome(at[m].Nodes(), cells, home, m, l.head, l.tail, n);
    }
    BothHome(l.Nodes(), cells, home, l.head, l.tail, n);
  }

  /** list_init of all of them. */
  method AddLists<N(==)>(names: set<N>)
    returns (at: map<N, List>, ghost cells: set<Elem>, ghost home: map<Elem, N>)
    ensures at.Keys == names && ListsOk(at, cells, home) && fresh(cells)
    ensures forall n :: n in at ==> fresh(at[n]) && at[n].elems == []
  {
    hide ListsOk;
    at, cells, home := map[], {}, map[];
    NoLists<N>();
    var todo := names;
    while todo != {}
      invariant todo <= names && ListsOk(at, cells, home) && fresh(cells) && at.Keys == names - todo
      invariant forall n :: n in at ==> fresh(at[n]) && at[n].elems == []
      decreases |todo|
    {
      var n :| n in todo;
      at, cells, home := AddList(at, cells, home, n);
      todo := todo - {n};
    }
  }

  lemma StillHome<N>(s: seq<Elem>, cells: set<Elem>, home: map<Elem, N>, m: N, x: Elem, y: Elem, n: N)
    requires AtHome(s, cells, home, m) && x !in cells && y !in cells
    ensures AtHome(s, cells + {x, y}, home[x := n][y := n], m)
  {
  }

  lemma BothHome<N>(s: seq<Elem>, cells: set<Elem>, home: map<Elem, N>, x: Elem, y: Elem, n: N)
    requires forall z :: z in s ==> z == x || z == y
    ensures AtHome(s, cells + {x, y}, home[x := n][y := n], n)
  {
  }

  lemma NoLists<N>()
    ensures ListsOk<N>(map[], {}, map[])
  {
  }

  lemma MoreCells<N>(at: map<N, List>, cells: set<Elem>, home: map<Elem, N>, x: Elem)
    requires ListsOk(at, cells, home)
    ensures ListsOk(at, cells + {x}, home)
  {
    hide List.Valid;
  }

  // ---------------------------------------------------------------- what elements are embedded in

  /** What the elements of a list are embedded in, by elem2entry: threads or blocks of memory, by number. */
  ghost function Entries(owner: map<Elem, nat>, q: seq<Elem>): (r: seq<nat>)
    ensures |r| == |q|
  {
    seq(|q|, i requires 0 <= i < |q| => if q[i] in owner then owner[q[i]] else 0)
  }

  lemma EntriesConcat(owner: map<Elem, nat>, p: seq<Elem>, q: seq<Elem>)
    ensures Entries(owner, p + q) == Entries(owner, p) + Entries(owner, q)
  {
  }

  lemma EntriesOne(owner: map<Elem, nat>, e: Elem)
    requires e in owner
    ensures Entries(owner, [e]) == [owner[e]]
  {
  }

  lemma EntriesNone(owner: map<Elem, nat>)
    ensures Entries(owner, []) == []
  {
  }

  /** Every one of them has an element of its own, and the lists are made of such elements. */
  ghost predicate TagsOk<N>(tags: map<nat, Elem>, owner: map<Elem, nat>, all: Contents<N>, ends: set<Elem>) {
    && (forall t :: t in tags ==> tags[t] in owner && owner[tags[t]] == t)
    && (forall e :: e in owner ==> e !in ends && owner[e] in tags && tags[owner[e]] == e)
    && (forall n, e :: n in all && e in all[n] ==> e in owner)
  }

  /** A thread is on a list exactly when its tag is, and a block when its free_elem is. */
  lemma TagOnList<N>(tags: map<nat, Elem>, owner: map<Elem, nat>, all: Contents<N>, ends: set<Elem>, n: N, t: nat)
    requires TagsOk(tags, owner, all, ends) && n in all && t in tags
    ensures t in Entries(owner, all[n]) <==> tags[t] in all[n]
  {
    var q, r := all[n], Entries(owner, all[n]);
    if t in r {
      var i :| 0 <= i < |r| && r[i] == t;
      assert q[i] in owner && owner[q[i]] == t;
    }
    if tags[t] in q {
      var i :| 0 <= i < |q| && q[i] == tags[t];
      assert r[i] == t;
    }
  }

  /** Another's element on no list changes nothing that is on one. */
  lemma EntriesMore(owner: map<Elem, nat>, q: seq<Elem>, e: Elem, t: nat)
    requires e !in q
    ensures Entries(owner[e := t], q) == Entries(owner, q)
  {
    forall i | 0 <= i < |q| ensures Entries(owner[e := t], q)[i] == Entries(owner, q)[i] {
      assert q[i] in q;
    }
  }

  lemma TagsKept<N>(tags: map<nat, Elem>, owner: map<Elem, nat>, all: Contents<N>, ends: set<Elem>, n: N, q: seq<Elem>)
    requires TagsOk(tags, owner, all, ends) && forall e :: e in q ==> e in owner
    ensures TagsOk(tags, owner, all[n := q], ends)
  {
  }

  lemma TagsMore<N>(tags: map<nat, Elem>, owner: map<Elem, nat>, all: Contents<N>, ends: set<Elem>, t: nat, e: Elem)
    requires TagsOk(tags, owner, all, ends) && t !in tags && e !in owner && e !in ends
    ensures TagsOk(tags[t := e], owner[e := t], all, ends)
  {
  }

  lemma NoTags<N>(all: Contents<N>, ends: set<Elem>)
    requires forall n :: n in all ==> all[n] == []
    ensures TagsOk(map[], map[], all, ends)
  {
  }

  // ---------------------------------------------------------------- the lists

  class Lists<N(==)> {
    const at: map<N, List>
    ghost var cells: set<Elem>  // every list_elem there is: sentinels and tags, on a list or not
    ghost var home: map<Elem, N>
    ghost var repr: set<object>

    ghost predicate Valid()
      reads this, repr
    {
      && this !in repr && (forall n :: n in at ==> at[n] in repr) && (forall x :: x in cells ==> x in repr)
      && ListsOk(at, cells, home)
    }

    ghost function All(): (all: Contents<N>)
      requires Valid()
      reads this, repr
      ensures all.Keys == at.Keys
    {
      map n | n in at :: at[n].elems
    }

    /** The sentinels. */
    ghost function Ends(): set<Elem> {
      (set n | n in at :: at[n].head) + (set n | n in at :: at[n].tail)
    }

    lemma OffNodes(x: Elem)
      requires Valid() && Off(All(), Ends(), x)
      ensures forall n :: n in at ==> x !in at[n].Nodes()
    {
      forall n | n in at ensures x !in at[n].Nodes() {
        NodesAre(at[n]);
        assert x !in All()[n];
      }
    }

    lemma NodesOff(x: Elem)
      requires Valid() && forall n :: n in at ==> x !in at[n].Nodes()
      ensures Off(All(), Ends(), x)
    {
      forall n | n in at ensures x !in All()[n] && x != at[n].head && x != at[n].tail {
        NodesAre(at[n]);
      }
    }

    /** list_init of every one of them. */
    constructor (names: set<N>)
      ensures Valid() && fresh(repr) && at.Keys == names
      ensures forall n :: n in at ==> All()[n] == []
    {
      hide ListsOk;
      ghost var all, homes;
      var m;
      m, all, homes := AddLists(names);
      at, cells, home, repr := m, all, homes, m.Values + all;
    }

    /** A new control block or memory block brings its list_elem. */
    method AddTag() returns (tag: Elem)
      requires Valid()
      modifies this
      ensures Valid() && fresh(tag) && cells == old(cells) + {tag} && repr == old(repr) + {tag}
      ensures All() == old(All()) && Off(All(), Ends(), tag)
    {
      hide ListsOk;
      AllCells();
      tag := new Elem();
      NodesOff(tag);
      MoreCells(at, cells, home, tag);
      cells, repr := cells + {tag}, repr + {tag};
    }

    lemma AllCells()
      requires Valid()
      ensures forall n, x :: n in at && x in at[n].Nodes() ==> x in cells
    {
      hide List.Valid;
    }

    /** elem_find on one of them. */
    method Find(n: N, tag: Elem) returns (found: bool)
      requires Valid() && n in at && tag != at[n].head && tag != at[n].tail
      ensures found <==> tag in All()[n]
    {
      found := at[n].Find(tag);
    }

    /** list_empty on one of them. */
    method Empty(n: N) returns (b: bool)
      requires Valid() && n in at
      ensures b <==> All()[n] == []
    {
      b := at[n].Empty();
    }

    /** The nodes of the other lists are not this list's. */
    lemma Elsewhere(n: N)
      requires Valid() && n in at
      ensures forall m :: m in at && m != n ==> at[m] != at[n]
      ensures forall m, x :: m in at && m != n && x in at[m].Nodes() ==> x !in at[n].Nodes()
    {
      hide List.Valid;
      forall m | m in at && m != n ensures at[m] != at[n] {
        NodesAre(at[m]);
      }
    }

    method LinkLast(n: N, tag: Elem)
      requires Valid() && n in at && tag in cells && forall m :: m in at ==> tag !in at[m].Nodes()
      modifies repr
      ensures at[n].Valid() && at[n].elems == old(at[n].elems) + [tag]
      ensures forall m :: m in at && m != n ==> at[m].Valid() && at[m].elems == old(at[m].elems)
      ensures forall m :: m in at && m != n ==> at[m].Nodes() == old(at[m].Nodes())
      ensures forall x :: x in at[n].Nodes() ==> x in old(at[n].Nodes()) || x == tag
    {
      hide List.Valid, AtHome;
      Elsewhere(n);
      var l := at[n];
      assert l.tail in l.Nodes() && l.Node(|l.elems|) in l.Nodes() && l.tail in cells && l.Node(|l.elems|) in cells by {
        AllCells();
        NodesAre(l);
      }
      l.Append(tag);
    }

    method LinkFirst(n: N, tag: Elem)
      requires Valid() && n in at && tag in cells && forall m :: m in at ==> tag !in at[m].Nodes()
      modifies repr
      ensures at[n].Valid() && at[n].elems == [tag] + old(at[n].elems)
      ensures forall m :: m in at && m != n ==> at[m].Valid() && at[m].elems == old(at[m].elems)
      ensures forall m :: m in at && m != n ==> at[m].Nodes() == old(at[m].Nodes())
      ensures forall x :: x in at[n].Nodes() ==> x in old(at[n].Nodes()) || x == tag
    {
      hide List.Valid, AtHome;
      Elsewhere(n);
      var l := at[n];
      assert l.head in l.Nodes() && l.Node(1) in l.Nodes() && l.head in cells && l.Node(1) in cells by {
        AllCells();
        NodesAre(l);
      }
      l.Push(tag);
    }

    /** Where a tag that was on no list is at home does not matter to the lists. */
    lemma NewHome(n: N, tag: Elem, was: seq<Elem>)
      requires n in at && tag in cells && AtHome(was, cells, home, n)
      requires forall x :: x in at[n].Nodes() ==> x in was || x == tag
      requires forall m :: m in at && m != n ==> AtHome(at[m].Nodes(), cells, home, m) && tag !in at[m].Nodes()
      ensures forall m :: m in at ==> AtHome(at[m].Nodes(), cells, home[tag := n], m)
    {
    }

    /** list_append on one of them. */
    method Append(n: N, tag: Elem)
      requires Valid() && n in at && tag in cells && Off(All(), Ends(), tag)
      modifies this, repr
      ensures Valid() && repr == old(repr) && cells == old(cells)
      ensures All() == old(All())[n := old(All())[n] + [tag]]
    {
      hide List.Valid, List.Nodes, Off, Ends, AtHome;
      OffNodes(tag);
      LinkLast(n, tag);
      NewHome(n, tag, old(at[n].Nodes()));
      home := home[tag := n];
    }

    /** list_push on one of them. */
    method Push(n: N, tag: Elem)
      requires Valid() && n in at && tag in cells && Off(All(), Ends(), tag)
      modifies this, repr
      ensures Valid() && repr == old(repr) && cells == old(cells)
      ensures All() == old(All())[n := [tag] + old(All())[n]]
    {
      hide List.Valid, List.Nodes, Off, Ends, AtHome;
      OffNodes(tag);
      LinkFirst(n, tag);
      NewHome(n, tag, old(at[n].Nodes()));
      home := home[tag := n];
    }

    /** list_pop on one of them: the tag is on no list afterwards. */
    method Pop(n: N) returns (tag: Elem)
      requires Valid() && n in at && All()[n] != []
      modifies repr
      ensures Valid() && repr == old(repr) && cells == old(cells) && tag == old(All())[n][0] && Off(All(), Ends(), tag)
      ensures All() == old(All())[n := old(All())[n][1..]]
    {
      hide List.Valid, List.Nodes, Off, Ends, AtHome;
      tag := UnlinkFirst(n);
      LessHome(n, old(at[n].Nodes()));
      NodesOff(tag);
      assert All()[n] == old(All())[n][1..];
    }

    /** list_remove: the tag leaves the list it is on. */
    method Remove(n: N, tag: Elem, ghost k: nat)
      requires Valid() && n in at && k < |All()[n]| && All()[n][k] == tag
      modifies repr
      ensures Valid() && repr == old(repr) && cells == old(cells) && Off(All(), Ends(), tag)
      ensures All() == old(All())[n := RemoveAt(old(All())[n], k)]
    {
      hide List.Valid, List.Nodes, Off, Ends, AtHome;
      UnlinkOne(n, tag, k);
      LessHome(n, old(at[n].Nodes()));
      NodesOff(tag);
      assert All()[n] == RemoveAt(old(All())[n], k);
    }

    method UnlinkOne(n: N, tag: Elem, ghost k: nat)
      requires Valid() && n in at && k < |at[n].elems| && at[n].elems[k] == tag
      modifies repr
      ensures at[n].Valid() && at[n].elems == RemoveAt(old(at[n].elems), k)
      ensures forall m :: m in at && m != n ==> at[m].Valid() && at[m].elems == old(at[m].elems)
      ensures forall m :: m in at && m != n ==> at[m].Nodes() == old(at[m].Nodes())
      ensures forall x :: x in at[n].Nodes() ==> x in old(at[n].Nodes())
      ensures forall m :: m in at ==> tag !in at[m].Nodes()
    {
      hide List.Valid, AtHome;
      Elsewhere(n);
      var l := at[n];
      assert l.Node(k) in l.Nodes() && l.Node(k + 2) in l.Nodes() && l.Node(k) in cells && l.Node(k + 2) in cells by {
        AllCells();
        NodesAre(l);
      }
      NodesAre(l);
      LeavingNode(l, k);
      assert l.elems[k] in l.elems && l.elems[k] in l.Nodes();
      l.Remove(tag, k);
      NodesAre(l);
    }

    method UnlinkFirst(n: N) returns (tag: Elem)
      requires Valid() && n in at && at[n].elems != []
      modifies repr
      ensures at[n].Valid() && tag == old(at[n].elems)[0] && at[n].elems == old(at[n].elems)[1..]
      ensures forall m :: m in at && m != n ==> at[m].Valid() && at[m].elems == old(at[m].elems)
      ensures forall m :: m in at && m != n ==> at[m].Nodes() == old(at[m].Nodes())
      ensures forall x :: x in at[n].Nodes() ==> x in old(at[n].Nodes())
      ensures forall m :: m in at ==> tag !in at[m].Nodes()
    {
      hide List.Valid, AtHome;
      Elsewhere(n);
      var l := at[n];
      assert l.head in l.Nodes() && l.Node(2) in l.Nodes() && l.head in cells && l.Node(2) in cells by {
        AllCells();
        NodesAre(l);
      }
      NodesAre(l);
      PoppedNode(l);
      assert l.elems[0] in l.elems && l.elems[0] in l.Nodes();
      tag := l.Pop();
      NodesAre(l);
    }

    /** A list that lost a node is made of nodes it had. */
    lemma LessHome(n: N, was: seq<Elem>)
      requires n in at && AtHome(was, cells, home, n) && forall x :: x in at[n].Nodes() ==> x in was
      ensures AtHome(at[n].Nodes(), cells, home, n)
    {
    }

    lemma LeavingNode(l: List, k: nat)
      requires l.Valid() && k < |l.elems|
      ensures l.elems[k] != l.head && l.elems[k] != l.tail && l.elems[k] !in RemoveAt(l.elems, k)
      ensures forall x :: x in RemoveAt(l.elems, k) ==> x in l.elems
    {
      var s := l.Nodes();
      assert s[k + 1] == l.elems[k] && s[0] == l.head && s[|l.elems| + 1] == l.tail;
      assert forall i :: 0 <= i < |l.elems| ==> l.elems[i] == s[i + 1];
    }

    lemma PoppedNode(l: List)
      requires l.Valid() && l.elems != []
      ensures l.elems[0] != l.head && l.elems[0] != l.tail && l.elems[0] !in l.elems[1..]
    {
      var s := l.Nodes();
      assert s[1] == l.elems[0] && s[0] == l.head && s[|l.elems| + 1] == l.tail;
      assert forall i :: 1 <= i < |l.elems| ==> l.elems[i] == s[i + 1];
    }
  }
}
