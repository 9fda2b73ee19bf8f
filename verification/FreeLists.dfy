/** The free lists of the size classes, through the list_elem in the first bytes of each free block. */
module FreeLists {
  import opened IntrusiveList
  import opened TagLists
  import opened SlabInv

  /** The blocks on each list. */
  ghost function BlocksOn(of: map<Elem, nat>, all: Contents<nat>): (r: seq<seq<nat>>)
    ensures |r| == DESC_CNT && forall d: nat :: d < DESC_CNT && d in all ==> r[d] == Entries(of, all[d])
  {
    seq(DESC_CNT, d requires 0 <= d < DESC_CNT => if d in all then Entries(of, all[d]) else [])
  }

  /** Another list for class d. */
  lemma OneList(of: map<Elem, nat>, all: Contents<nat>, d: nat, q: seq<Elem>)
    requires d < DESC_CNT && d in all
    ensures BlocksOn(of, all[d := q]) == BlocksOn(of, all)[d := Entries(of, q)]
  {
  }

  /** A block whose element is on no list is on none itself. */
  lemma NotOn(at: map<nat, Elem>, of: map<Elem, nat>, all: Contents<nat>, ends: set<Elem>, b: nat)
    requires TagsOk(at, of, all, ends) && b in at && forall d :: d in all ==> d < DESC_CNT
    ensures Off(all, ends, at[b]) <==> forall d: nat :: d < DESC_CNT && d in all ==> b !in BlocksOn(of, all)[d]
  {
    forall d | d in all ensures b in Entries(of, all[d]) <==> at[b] in all[d] {
      TagOnList(at, of, all, ends, d, b);
    }
  }

  /** The element at a new address changes nothing that is on a list. */
  lemma BlocksMore(of: map<Elem, nat>, all: Contents<nat>, e: Elem, b: nat)
    requires forall d :: d in all ==> e !in all[d]
    ensures BlocksOn(of[e := b], all) == BlocksOn(of, all)
  {
    hide Entries;
    forall d: nat | d < DESC_CNT && d in all ensures Entries(of[e := b], all[d]) == Entries(of, all[d]) {
      EntriesMore(of, all[d], e, b);
    }
  }

  /** The blocks on a list have elements. */
  lemma BlocksKnown(at: map<nat, Elem>, of: map<Elem, nat>, all: Contents<nat>, ends: set<Elem>)
    requires TagsOk(at, of, all, ends)
    ensures forall d, b :: d in all && b in Entries(of, all[d]) ==> b in at
  {
    forall d, b | d in all && b in Entries(of, all[d]) ensures b in at {
      var q, r := all[d], Entries(of, all[d]);
      var i :| 0 <= i < |r| && r[i] == b;
      assert q[i] in of && of[q[i]] == b;
    }
  }

  lemma NoBlocks(of: map<Elem, nat>, all: Contents<nat>)
    requires forall d :: d in all ==> all[d] == []
    ensures BlocksOn(of, all) == seq(DESC_CNT, _ => [])
  {
    EntriesNone(of);
  }

  lemma OneLess(of: map<Elem, nat>, q: seq<Elem>, k: nat)
    requires k < |q|
    ensures Entries(of, RemoveAt(q, k)) == Entries(of, q)[..k] + Entries(of, q)[k + 1..]
  {
  }

  class BlockLists {
    const lists: Lists<nat>     // by size class
    var at: map<nat, Elem>      // the free_elem at a block's address
    var of: map<Elem, nat>      // elem2entry
    ghost var repr: set<object>

    ghost predicate Valid()
      reads this, repr
    {
      && this !in repr && lists in repr && lists.repr <= repr && this !in lists.repr && lists.Valid()
      && (forall d: nat :: d in lists.at <==> d < DESC_CNT)
      && TagsOk(at, of, lists.All(), lists.Ends()) && forall b :: b in at ==> at[b] in lists.cells
    }

    /** The free blocks of each class, in order. */
    ghost function Frees(): (r: seq<seq<nat>>)
      requires Valid()
      reads this, repr
      ensures |r| == DESC_CNT
    {
      BlocksOn(of, lists.All())
    }

    constructor ()
      ensures Valid() && fresh(repr) && Frees() == seq(DESC_CNT, _ => [])
    {
      hide Lists.Valid, Lists.Ends, Lists.All, TagsOk, Entries, BlocksOn;
      var ls := new Lists<nat>({0, 1, 2, 3, 4, 5, 6});
      lists := ls;
      at, of := map[], map[];
      repr := {ls} + ls.repr;
      new;
      NoTags(lists.All(), lists.Ends());
      NoBlocks(of, lists.All());
    }

    /** list_empty(&descs[d].free_list) */
    method Empty(d: nat) returns (b: bool)
      requires Valid() && d < DESC_CNT
      ensures b <==> Frees()[d] == []
    {
      hide Lists.Valid, Lists.Ends, TagsOk;
      b := lists.Empty(d);
    }

    /** elem_find(&descs[d].free_list, &block->free_elem) */
    method Find(d: nat, b: nat) returns (found: bool)
      requires Valid() && d < DESC_CNT
      ensures found <==> b in Frees()[d]
    {
      hide Lists.Valid;
      if b in at {
        TagOnList(at, of, lists.All(), lists.Ends(), d, b);
        found := lists.Find(d, at[b]);
      } else {
        BlocksKnown(at, of, lists.All(), lists.Ends());
        found := false;
      }
    }

    /** The first bytes of a block are a list_elem. */
    method Touch(b: nat)
      requires Valid() && b !in at
      modifies this, repr
      ensures Valid() && fresh(repr - old(repr)) && b in at && Frees() == old(Frees())
    {
      hide Lists.Valid, Lists.Ends, Lists.All, TagsOk, Entries, BlocksOn;
      var e := lists.AddTag();
      BlocksMore(of, lists.All(), e, b);
      TagsMore(at, of, lists.All(), lists.Ends(), b, e);
      at, of, repr := at[b := e], of[e := b], repr + {e};
    }

    /** list_append(&descs[d].free_list, &block->free_elem) */
    method Append(d: nat, b: nat)
      requires Valid() && d < DESC_CNT && forall e :: 0 <= e < DESC_CNT ==> b !in Frees()[e]
      modifies this, repr
      ensures Valid() && fresh(repr - old(repr)) && Frees() == old(Frees())[d := old(Frees())[d] + [b]]
    {
      hide Lists.Valid, Lists.Ends, Lists.All, Off, TagsOk, Entries, BlocksOn;
      if b !in at {
        Touch(b);
      }
      ghost var all, q := lists.All(), lists.All()[d];
      NotOn(at, of, all, lists.Ends(), b);
      assert forall e: nat :: e < DESC_CNT && e in all ==> b !in Frees()[e];
      OneList(of, all, d, q + [at[b]]);
      EntriesConcat(of, q, [at[b]]);
      Owner(b, d);
      EntriesOne(of, at[b]);
      TagsKept(at, of, all, lists.Ends(), d, q + [at[b]]);
      lists.Append(d, at[b]);
    }

    /** elem2entry(struct mem_block, free_elem, list_pop(&descs[d].free_list)) */
    method Pop(d: nat) returns (b: nat)
      requires Valid() && d < DESC_CNT && Frees()[d] != []
      modifies this, repr
      ensures Valid() && repr == old(repr)
      ensures b == old(Frees())[d][0] && Frees() == old(Frees())[d := old(Frees())[d][1..]]
    {
      hide Lists.Valid, Lists.Ends, Lists.All, Off, TagsOk, Entries, BlocksOn;
      ghost var all, q := lists.All(), lists.All()[d];
      Listed(d);
      OneList(of, all, d, q[1..]);
      assert q == [q[0]] + q[1..];
      EntriesConcat(of, [q[0]], q[1..]);
      EntriesOne(of, q[0]);
      TagsKept(at, of, all, lists.Ends(), d, q[1..]);
      var e := lists.Pop(d);
      b := of[e];
    }

    /** list_remove(&block->free_elem) */
    method Remove(d: nat, b: nat) returns (ghost k: nat)
      requires Valid() && d < DESC_CNT && b in Frees()[d]
      modifies this, repr
      ensures Valid() && repr == old(repr)
      ensures k < |old(Frees())[d]| && old(Frees())[d][k] == b
      ensures Frees() == old(Frees())[d := old(Frees())[d][..k] + old(Frees())[d][k + 1..]]
    {
      hide Lists.Valid, Lists.Ends, Lists.All, Off, Entries, BlocksOn, RemoveAt;
      ghost var all, q := lists.All(), lists.All()[d];
      k := Place(d, b);
      OneList(of, all, d, RemoveAt(q, k));
      OneLess(of, q, k);
      Fewer(q, k);
      TagsKept(at, of, all, lists.Ends(), d, RemoveAt(q, k));
      lists.Remove(d, at[b], k);
    }

    /** Where a block's element is on the list. */
    lemma Place(d: nat, b: nat) returns (k: nat)
      requires Valid() && d < DESC_CNT && b in Frees()[d]
      ensures b in at && k < |lists.All()[d]| && lists.All()[d][k] == at[b] && k < |Frees()[d]| && Frees()[d][k] == b
    {
      hide Lists.Valid, Lists.Ends;
      var q, r := lists.All()[d], Frees()[d];
      k :| k < |r| && r[k] == b;
      assert q[k] in of && of[q[k]] == b;
    }

    lemma Fewer(q: seq<Elem>, k: nat)
      requires k < |q|
      ensures forall e :: e in RemoveAt(q, k) ==> e in q
    {
    }

    lemma Owner(b: nat, d: nat)
      requires Valid() && b in at && d < DESC_CNT
      ensures at[b] in of && of[at[b]] == b && forall e :: e in lists.All()[d] ==> e in of
    {
    }

    lemma Listed(d: nat)
      requires Valid() && d < DESC_CNT && Frees()[d] != []
      ensures var q := lists.All()[d]; q != [] && forall e :: e in q ==> e in of
    {
    }
  }
}
