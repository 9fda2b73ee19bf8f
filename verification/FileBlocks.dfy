/** Which sectors a file is made of, and what it holds: twelve direct blocks and one table of 128 more. */
module FileBlocks {
  import opened Disks

  const DIRECT: nat := 12
  const MAX_BLOCKS: nat := 140

  /** all_blocks: the direct blocks, then the indirect table, zero where there is none. */
  function Chain(s: seq<word>, d: seq<Sector>): (c: seq<word>)
    requires |s| == 13
    ensures |c| == MAX_BLOCKS
  {
    s[..DIRECT] + (if s[12] != 0 && s[12] < |d| then Decode(d[s[12]]) else seq(128, _ => 0))
  }

  /** The first `n` blocks are there, the others are not; all of them, and the table, lie in lo .. hi and differ. */
  ghost predicate Mapped(lo: nat, hi: nat, s: seq<word>, d: seq<Sector>, n: nat) {
    && |s| == 13 && n <= MAX_BLOCKS && 0 < lo <= hi <= |d|
    && (s[12] != 0 <==> n > DIRECT) && (s[12] != 0 ==> lo <= s[12] < hi)
    && ChainOk(lo, hi, Chain(s, d), s[12], n)
  }

  ghost predicate ChainOk(lo: nat, hi: nat, c: seq<word>, table: word, n: nat)
    requires |c| == MAX_BLOCKS
  {
    && (forall i :: 0 <= i < MAX_BLOCKS ==> (c[i] != 0 <==> i < n))
    && (forall i :: 0 <= i < MAX_BLOCKS && i < n ==> lo <= c[i] < hi && c[i] != table)
    && (forall i, j :: 0 <= i < j < MAX_BLOCKS && j < n ==> c[i] != c[j])
  }

  /** How many blocks a file of `size` bytes has once it was first written: one more than it needs at times. */
  function BlocksFor(size: nat): nat {
    size / SECTOR_SIZE + 1
  }

  function Count(s: seq<word>, size: nat): nat
    requires |s| == 13
  {
    if s[0] == 0 then 0 else BlocksFor(size)
  }

  ghost predicate FileOk(lo: nat, hi: nat, s: seq<word>, size: nat, d: seq<Sector>) {
    && |s| == 13 && (s[0] == 0 ==> size == 0) && size < MAX_BLOCKS * SECTOR_SIZE
    && Mapped(lo, hi, s, d, Count(s, size))
  }

  function ByteOf(c: seq<word>, d: seq<Sector>, i: nat): byte {
    if i / SECTOR_SIZE < |c| && c[i / SECTOR_SIZE] < |d| then d[c[i / SECTOR_SIZE]][i % SECTOR_SIZE] else 0
  }

  function Content(s: seq<word>, size: nat, d: seq<Sector>): (bytes: seq<byte>)
    requires |s| == 13
    ensures |bytes| == size
  {
    seq<byte>(size, i requires 0 <= i < size => ByteOf(Chain(s, d), d, i))
  }

  predicate InFootprint(s: seq<word>, d: seq<Sector>, b: nat)
    requires |s| == 13
  {
    b != 0 && (b == s[12] || b in Chain(s, d))
  }

  /** The sectors an inode owns: its data blocks and its table. */
  ghost function Footprint(s: seq<word>, d: seq<Sector>): set<nat>
    requires |s| == 13
  {
    set b: nat | b in [s[12]] + Chain(s, d) && InFootprint(s, d, b)
  }

  lemma FootprintIs(s: seq<word>, d: seq<Sector>)
    requires |s| == 13
    ensures forall b: nat :: b in Footprint(s, d) <==> InFootprint(s, d, b)
  {
  }

  lemma FootprintRange(lo: nat, hi: nat, s: seq<word>, d: seq<Sector>, n: nat)
    requires Mapped(lo, hi, s, d, n)
    ensures forall b :: b in Footprint(s, d) ==> lo <= b < hi
  {
  }

  /** Only the table sector decides where a file's blocks are. */
  lemma ChainFrame(s: seq<word>, d: seq<Sector>, d': seq<Sector>)
    requires |s| == 13 && |d'| == |d|
    requires s[12] != 0 && s[12] < |d| ==> d'[s[12]] == d[s[12]]
    ensures Chain(s, d') == Chain(s, d) && Footprint(s, d') == Footprint(s, d)
  {
  }

  /** What is written outside a file's sectors does not change the file. */
  lemma FileFrame(lo: nat, hi: nat, s: seq<word>, size: nat, d: seq<Sector>, d': seq<Sector>)
    requires FileOk(lo, hi, s, size, d) && |d'| == |d|
    requires forall b :: b in Footprint(s, d) ==> d'[b] == d[b]
    ensures FileOk(lo, hi, s, size, d') && Content(s, size, d') == Content(s, size, d)
    ensures Footprint(s, d') == Footprint(s, d)
  {
    hide Decode;
    assert s[12] != 0 ==> s[12] in Footprint(s, d);
    ChainFrame(s, d, d');
    var c := Chain(s, d);
    forall i | 0 <= i < size ensures ByteOf(c, d', i) == ByteOf(c, d, i) {
      BlockInside(s, size, i);
      assert c[i / SECTOR_SIZE] in Footprint(s, d);
    }
  }

  lemma BlockInside(s: seq<word>, size: nat, i: nat)
    requires |s| == 13 && s[0] != 0 && i <= size
    ensures i / SECTOR_SIZE < Count(s, size)
  {
  }

  // ---------------------------------------------------------------- blocks taken from the free ones

  /** The sectors in `q` are different, were free when `taken0` were taken, and are taken now. */
  ghost predicate Fresh(q: seq<word>, taken0: set<nat>, taken: set<nat>, lo: nat, hi: nat) {
    && (forall i, j :: 0 <= i < j < |q| ==> q[i] != q[j])
    && (forall b :: b in q ==> b !in taken0 && lo <= b < hi)
    && (forall b :: b in taken <==> b in taken0 || b in q)
  }

  lemma FreshNone(taken: set<nat>, lo: nat, hi: nat)
    ensures Fresh([], taken, taken, lo, hi)
  {
  }

  lemma FreshMore(q: seq<word>, taken0: set<nat>, taken: set<nat>, lo: nat, hi: nat, b: word)
    requires Fresh(q, taken0, taken, lo, hi) && b !in taken && lo <= b < hi
    ensures Fresh(q + [b], taken0, taken + {b}, lo, hi)
  {
  }

  /** `q` appended to the first `n` blocks gives a longer chain with no block twice. */
  lemma Appended(lo: nat, hi: nat, s0: seq<word>, d0: seq<Sector>, n: nat, s: seq<word>, d: seq<Sector>, t: seq<word>,
                 q: seq<word>, taken0: set<nat>, taken: set<nat>)
    requires Mapped(lo, hi, s0, d0, n) && Footprint(s0, d0) <= taken0
    requires |s| == 13 && |d| == |d0| && n + |q| <= MAX_BLOCKS
    requires Fresh(t + q, taken0, taken, lo, hi) && |t| <= 1
    requires s[12] == if t != [] then t[0] else s0[12]
    requires t != [] <==> n <= DIRECT < n + |q|
    requires Chain(s, d) == Chain(s0, d0)[..n] + q + seq(MAX_BLOCKS - n - |q|, _ => 0)
    ensures Mapped(lo, hi, s, d, n + |q|)
    ensures Footprint(s0, d0) <= Footprint(s, d) && taken == taken0 + Footprint(s, d)
  {
    hide Decode, Chain, Footprint, InFootprint, ChainOk;
    AppendedDistinct(lo, hi, s0, d0, n, t, q, taken0, taken);
    AppendedChain(lo, hi, s0, d0, n, t, q, s[12], taken0, taken);
    assert t != [] ==> (t + q)[0] == t[0] && t[0] in t + q;
    assert 0 !in t + q;
    AppendedFootprint(lo, hi, s0, d0, n, s, d, t, q);
    assert taken == taken0 + Footprint(s, d) by {
      assert forall b :: b in taken <==> b in taken0 || b in t + q;
    }
  }

  lemma AppendedChain(lo: nat, hi: nat, s0: seq<word>, d0: seq<Sector>, n: nat, t: seq<word>, q: seq<word>, table: word,
                      taken0: set<nat>, taken: set<nat>)
    requires Mapped(lo, hi, s0, d0, n) && Footprint(s0, d0) <= taken0 && n + |q| <= MAX_BLOCKS
    requires Fresh(t + q, taken0, taken, lo, hi)
    requires table == if t != [] then t[0] else s0[12]
    requires var c := Chain(s0, d0)[..n] + q; forall i, j :: 0 <= i < j < |c| ==> c[i] != c[j]
    requires forall b :: b in t ==> b !in Chain(s0, d0)[..n] + q
    ensures ChainOk(lo, hi, Chain(s0, d0)[..n] + q + seq(MAX_BLOCKS - n - |q|, _ => 0), table, n + |q|)
  {
    hide Decode, Chain;
    var c0, m := Chain(s0, d0), n + |q|;
    var c := c0[..n] + q + seq(MAX_BLOCKS - n - |q|, _ => 0);
    assert c[..m] == c0[..n] + q;
    assert s0[12] != 0 && t == [] ==> s0[12] in Footprint(s0, d0);
    forall i | 0 <= i < m ensures c[i] == (c0[..n] + q)[i] && lo <= c[i] < hi && c[i] != table {
      assert c[i] in c0[..n] + q;
      if i < n {
        assert c[i] == c0[i];
      } else {
        assert c[i] == q[i - n] == (t + q)[|t| + i - n] && c[i] in t + q;
      }
    }
  }

  lemma AppendedDistinct(lo: nat, hi: nat, s0: seq<word>, d0: seq<Sector>, n: nat, t: seq<word>, q: seq<word>,
                         taken0: set<nat>, taken: set<nat>)
    requires Mapped(lo, hi, s0, d0, n) && Footprint(s0, d0) <= taken0
    requires Fresh(t + q, taken0, taken, lo, hi)
    ensures var c := Chain(s0, d0)[..n] + q; forall i, j :: 0 <= i < j < |c| ==> c[i] != c[j]
    ensures forall b :: b in t ==> b !in Chain(s0, d0)[..n] + q
  {
    hide Decode, Chain;
    var c0 := Chain(s0, d0);
    assert forall i :: 0 <= i < n ==> c0[i] in Footprint(s0, d0);
    assert forall i :: 0 <= i < |q| ==> (t + q)[|t| + i] == q[i] && q[i] in t + q;
    forall b | b in t ensures b !in c0[..n] + q {
      var i :| 0 <= i < |t| && t[i] == b;
      assert (t + q)[i] == b && b in t + q;
    }
  }

  lemma AppendedFootprint(lo: nat, hi: nat, s0: seq<word>, d0: seq<Sector>, n: nat, s: seq<word>, d: seq<Sector>,
                          t: seq<word>, q: seq<word>)
    requires Mapped(lo, hi, s0, d0, n) && |s| == 13 && n + |q| <= MAX_BLOCKS && |t| <= 1 && 0 !in t + q
    requires s[12] == if t != [] then t[0] else s0[12]
    requires t != [] ==> s0[12] == 0
    requires Chain(s, d) == Chain(s0, d0)[..n] + q + seq(MAX_BLOCKS - n - |q|, _ => 0)
    ensures forall b :: b in Footprint(s, d) <==> b in Footprint(s0, d0) || b in t + q
  {
    hide Decode, Chain;
    var c0, c := Chain(s0, d0), Chain(s, d);
    assert forall i :: 0 <= i < n ==> c[i] == c0[i];
    assert forall i :: 0 <= i < |q| ==> c[n + i] == q[i];
    forall b: nat | b in Footprint(s0, d0) || b in t + q ensures b in Footprint(s, d) {
      if b in c0 {
        var i :| 0 <= i < MAX_BLOCKS && c0[i] == b;
        assert c[i] == b;
      } else if b in q {
        var i :| 0 <= i < |q| && q[i] == b;
        assert c[n + i] == b;
      }
    }
    forall b | b in Footprint(s, d) ensures b in Footprint(s0, d0) || b in t + q {
      if b in c {
        var i :| 0 <= i < MAX_BLOCKS && c[i] == b;
        assert i < n ==> c0[i] == b;
        assert n <= i < n + |q| ==> q[i - n] == b;
      }
    }
  }
}
