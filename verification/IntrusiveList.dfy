/** The doubly linked list of lib/kernel/list.c: nodes carry no data, two sentinels bound a list. */
module IntrusiveList {

  class Elem {
    var prev: Elem?
    var next: Elem?
    constructor () {}
  }

  ghost predicate Distinct(s: seq<Elem>) {
    forall i, j :: 0 <= i < j < |s| ==> s[i] != s[j]
  }

  /** `prev` and `next` are mutually inverse along `s`. */
  ghost predicate Linked(s: seq<Elem>)
    reads s
  {
    && (forall i {:trigger s[i].next} :: 0 <= i < |s| - 1 ==> s[i].next == s[i + 1])
    && (forall i {:trigger s[i].prev} :: 0 < i < |s| ==> s[i].prev == s[i - 1])
  }

  /** The element sequence with `x` put in at position `k`, and with position `k` taken out. */
  ghost function InsertAt(s: seq<Elem>, k: nat, x: Elem): seq<Elem>
    requires k <= |s|
  {
    s[..k] + [x] + s[k..]
  }

  ghost function RemoveAt(s: seq<Elem>, k: nat): seq<Elem>
    requires k < |s|
  {
    s[..k] + s[k + 1..]
  }

  lemma NodesInsert(head: Elem, s: seq<Elem>, tail: Elem, k: nat, x: Elem)
    requires k <= |s|
    ensures [head] + InsertAt(s, k, x) + [tail] == InsertAt([head] + s + [tail], k + 1, x)
  {
  }

  lemma NodesRemove(head: Elem, s: seq<Elem>, tail: Elem, k: nat)
    requires k < |s|
    ensures [head] + RemoveAt(s, k) + [tail] == RemoveAt([head] + s + [tail], k + 1)
  {
  }

  class List {
    const head: Elem
    const tail: Elem
    ghost var elems: seq<Elem>  // what the list stands for

    /** Every node of the list, sentinels included. */
    ghost function Nodes(): seq<Elem>
      reads this
    {
      [head] + elems + [tail]
    }

    ghost function Node(k: nat): Elem
      reads this
      requires k < |elems| + 2
    {
      Nodes()[k]
    }

    ghost predicate Valid()
      reads this, head, tail, Nodes()
    {
      && Distinct(Nodes())
      && Linked(Nodes())
      && head.prev == null && tail.next == null
    }

    constructor ()
      ensures Valid() && elems == [] && fresh(head) && fresh(tail)
    {
      head := new Elem();
      tail := new Elem();
      elems := [];
      new;
      head.prev, head.next := null, tail;
      tail.prev, tail.next := head, null;
    }

    /** list_insert_before, with the position of `before` among the nodes as a ghost argument. */
    method InsertBefore(before: Elem, elem: Elem, ghost k: nat)
      requires Valid() && k <= |elems|
      requires before == Nodes()[k + 1] && elem !in Nodes()
      modifies this`elems, before`prev, Node(k)`next, elem
      ensures Valid() && elems == InsertAt(old(elems), k, elem)
    {
      ghost var was := Nodes();
      assert before.prev == was[k];
      before.prev.next := elem;
      elem.prev := before.prev;
      elem.next := before;
      before.prev := elem;
      elems := InsertAt(elems, k, elem);
      NodesInsert(head, old(elems), tail, k, elem);
      assert Nodes() == InsertAt(was, k + 1, elem);
    }

    /** list_push */
    method Push(elem: Elem)
      requires Valid() && elem !in Nodes()
      modifies this`elems, Node(1)`prev, head`next, elem
      ensures Valid() && elems == [elem] + old(elems)
    {
      assert head == Nodes()[0] && head.next == Nodes()[1];
      InsertBefore(head.next, elem, 0);
    }

    /** list_append */
    method Append(elem: Elem)
      requires Valid() && elem !in Nodes()
      modifies this`elems, tail`prev, Node(|elems|)`next, elem
      ensures Valid() && elems == old(elems) + [elem]
    {
      assert tail == Nodes()[|elems| + 1];
      InsertBefore(tail, elem, |elems|);
    }

    /** list_remove: the removed element keeps its stale links. */
    method Remove(pelem: Elem, ghost k: nat)
      requires Valid() && k < |elems| && elems[k] == pelem
      modifies this`elems, Node(k)`next, Node(k + 2)`prev
      ensures Valid() && elems == RemoveAt(old(elems), k)
    {
      ghost var was := Nodes();
      assert was[k + 1] == pelem && pelem.prev == was[k] && pelem.next == was[k + 2];
      pelem.prev.next := pelem.next;
      pelem.next.prev := pelem.prev;
      elems := RemoveAt(elems, k);
      NodesRemove(head, old(elems), tail, k);
      assert Nodes() == RemoveAt(was, k + 1);
    }

    /** list_pop; on an empty list the source follows the null `next` of the tail sentinel. */
    method Pop() returns (elem: Elem)
      requires Valid() && elems != []
      modifies this`elems, head`next, Node(2)`prev
      ensures Valid() && elem == old(elems)[0] && elems == old(elems)[1..]
    {
      assert head == Nodes()[0];
      elem := head.next;
      assert elem == Nodes()[1] == elems[0];
      Remove(elem, 0);
    }

    /** elem_find */
    method Find(obj: Elem) returns (found: bool)
      requires Valid() && obj != head && obj != tail
      ensures found <==> obj in elems
    {
      assert head == Nodes()[0] && head.next == Nodes()[1];
      var elem := head.next;
      ghost var i := 0;
      while elem != tail
        invariant 0 <= i <= |elems| && elem == Nodes()[i + 1]
        invariant forall j :: 0 <= j < i ==> elems[j] != obj
        decreases |elems| - i
      {
        assert elem == elems[i];
        if elem == obj {
          return true;
        }
        assert elem.next == Nodes()[i + 2];
        elem := elem.next;
        i := i + 1;
      }
      assert tail == Nodes()[|elems| + 1];
      return false;
    }

    /** list_len */
    method Len() returns (length: nat)
      requires Valid()
      ensures length == |elems|
    {
      assert head == Nodes()[0] && head.next == Nodes()[1];
      var elem := head.next;
      length := 0;
      while elem != tail
        invariant length <= |elems| && elem == Nodes()[length + 1]
        decreases |elems| - length
      {
        assert elem.next == Nodes()[length + 2];
        elem := elem.next;
        length := length + 1;
      }
      assert tail == Nodes()[|elems| + 1];
    }

    /** list_empty */
    method Empty() returns (b: bool)
      requires Valid()
      ensures b <==> elems == []
    {
      assert head == Nodes()[0] && head.next == Nodes()[1] && tail == Nodes()[|elems| + 1];
      b := head.next == tail;
    }
  }

  /** The links alone determine a list: two node sequences that start at the same head, follow the
      same `next` fields and end in null are the same sequence. */
  lemma {:induction false} LinksDetermine(s: seq<Elem>, t: seq<Elem>)
    requires s != [] && t != [] && s[0] == t[0]
    requires Linked(s) && Linked(t) && s[|s| - 1].next == null && t[|t| - 1].next == null
    ensures s == t
    decreases |s|
  {
    assert s[0].next == (if |s| == 1 then null else s[1]);
    assert t[0].next == (if |t| == 1 then null else t[1]);
    if |s| > 1 && |t| > 1 {
      assert s[0].next == s[1] && t[0].next == t[1];
      LinkedTail(s);
      LinkedTail(t);
      LinksDetermine(s[1..], t[1..]);
      assert s == [s[0]] + s[1..] && t == [t[0]] + t[1..];
    }
  }

  lemma LinkedTail(s: seq<Elem>)
    requires |s| > 1 && Linked(s)
    ensures Linked(s[1..])
  {
    forall i | 0 <= i < |s| - 2 ensures s[1..][i].next == s[1..][i + 1] {
      assert s[i + 1].next == s[i + 2];
    }
    forall i | 0 < i < |s| - 1 ensures s[1..][i].prev == s[1..][i - 1] {
      assert s[i + 1].prev == s[i];
    }
  }

  /** A list none of whose nodes was touched is still the list it was. */
  twostate lemma Untouched(l: List)
    requires old(l.Valid()) && l.elems == old(l.elems)
    requires forall x :: x in old(l.Nodes()) ==> x.next == old(x.next) && x.prev == old(x.prev)
    ensures l.Valid()
  {
    var s := l.Nodes();
    assert s[0] == l.head && s[|s| - 1] == l.tail && l.head in s && l.tail in s;
    forall i | 0 <= i < |s| - 1 ensures s[i].next == s[i + 1] {
      assert s[i] in s && old(s[i].next) == s[i + 1];
    }
    forall i | 0 < i < |s| ensures s[i].prev == s[i - 1] {
      assert s[i] in s && old(s[i].prev) == s[i - 1];
    }
  }
}
