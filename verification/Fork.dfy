/** The address-space copy of userprog/fork.c: page by page through a kernel buffer, switching directories. */
module Forking {
  import opened Bitmaps
  import opened Outcomes
  import opened Pages

  /** Page `v` is among the first `n` of the bitmap, and its bit is set. */
  ghost predicate PageSet(s: seq<bool>, base: nat, n: nat, v: nat) {
    base <= v < base + n && v - base < |s| && s[v - base]
  }

  function CountSet(s: seq<bool>, n: nat): (c: nat)
    requires n <= |s|
    ensures c <= n
  {
    if n == 0 then 0 else CountSet(s, n - 1) + (if s[n - 1] then 1 else 0)
  }

  /** The page tables that the first `n` bits' pages lie under. */
  function Tables(s: seq<bool>, base: nat, n: nat): set<nat>
    requires n <= |s|
  {
    if n == 0 then {} else Tables(s, base, n - 1) + (if s[n - 1] then {(base + n - 1) / 1024} else {})
  }

  lemma {:induction false} CountSetGrows(s: seq<bool>, i: nat, n: nat)
    requires i <= n <= |s|
    ensures CountSet(s, i) <= CountSet(s, n)
  {
    if i == n {
    } else {
      CountSetGrows(s, i, n - 1);
    }
  }

  lemma {:induction false} TablesGrow(s: seq<bool>, base: nat, i: nat, n: nat)
    requires i <= n <= |s|
    ensures Tables(s, base, i) <= Tables(s, base, n) && |Tables(s, base, i)| <= |Tables(s, base, n)|
  {
    if i == n {
    } else {
      TablesGrow(s, base, i, n - 1);
      var a, b := Tables(s, base, n - 1), Tables(s, base, n);
      assert b == a + (b - a);
    }
  }

  lemma {:induction false} NoneSet(s: seq<bool>, base: nat, i: nat, j: nat)
    requires i <= j <= |s| && forall k :: i <= k < j ==> !s[k]
    ensures CountSet(s, j) == CountSet(s, i) && Tables(s, base, j) == Tables(s, base, i)
    ensures forall v: nat :: PageSet(s, base, j, v) <==> PageSet(s, base, i, v)
  {
    if i == j {
    } else {
      NoneSet(s, base, i, j - 1);
    }
  }

  lemma OneSet(s: seq<bool>, base: nat, i: nat)
    requires i < |s| && s[i]
    ensures CountSet(s, i + 1) == CountSet(s, i) + 1
    ensures Tables(s, base, i + 1) == Tables(s, base, i) + {(base + i) / 1024}
    ensures |Tables(s, base, i + 1)| ==
      |Tables(s, base, i)| + (if (base + i) / 1024 in Tables(s, base, i) then 0 else 1)
    ensures forall v: nat :: PageSet(s, base, i + 1, v) <==> PageSet(s, base, i, v) || v == base + i
  {
    var a, x := Tables(s, base, i), (base + i) / 1024;
    assert x in a ==> a + {x} == a;
  }

  lemma ValuesGrow(m: map<nat, nat>, k: nat, x: nat)
    requires k !in m
    ensures m[k := x].Values == m.Values + {x}
  {
    var m' := m[k := x];
    assert m'[k] == x;
    forall y | y in m.Values ensures y in m'.Values {
      var j :| j in m && m[j] == y;
      assert m'[j] == y;
    }
    forall y | y in m'.Values ensures y in m.Values + {x} {
      var j :| j in m' && m'[j] == y;
      assert j != k ==> m[j] == y;
    }
  }

  /** The child has the pages whose bits are among the first `n`, under the tables they need. */
  ghost predicate MapCopied(pte: map<nat, nat>, pde: map<nat, nat>, s: seq<bool>, base: nat, n: nat)
    requires n <= |s|
  {
    (forall v :: v in pte <==> PageSet(s, base, n, v)) && pde.Keys == Tables(s, base, n)
  }

  /** The child's frames were free at the start, no two are the same, and no others were taken since. */
  ghost predicate OnFresh(pte: map<nat, nat>, pde: map<nat, nat>, usedU: set<nat>, nowU: set<nat>, usedK: set<nat>,
                          nowK: set<nat>, split: nat) {
    && usedU !! pte.Values && nowU == usedU + pte.Values
    && usedK !! pde.Values && nowK == usedK + pde.Values
    && (forall v, w :: v in pte && w in pte && v != w ==> pte[v] != pte[w])
    && (forall v :: v in pte ==> pte[v] >= split) && (forall d :: d in pde ==> pde[d] < split)
  }

  /** Frame `f` holds what page `v` of the parent held at the start. */
  ghost predicate SameContents(frames: map<nat, seq<bv8>>, frames0: map<nat, seq<bv8>>, f: nat, pte: map<nat, nat>,
                               v: nat) {
    v in pte && f in frames && pte[v] in frames0 && frames[f] == frames0[pte[v]]
  }

  /** The child's frames hold what the parent's pages held; the frames of its page tables hold page table entries
      now, which are in `pte`; all other frames hold what they did. */
  ghost predicate BytesCopied(pte: map<nat, nat>, pde: map<nat, nat>, parentPte: map<nat, nat>,
                              frames: map<nat, seq<bv8>>, frames0: map<nat, seq<bv8>>) {
    && (forall v :: v in pte ==> SameContents(frames, frames0, pte[v], parentPte, v))
    && (forall d :: d in pde ==> pde[d] !in frames)
    && (forall f :: f in frames0 && f !in pte.Values && f !in pde.Values ==> f in frames && frames[f] == frames0[f])
  }

  lemma FreshPage(pte: map<nat, nat>, pde: map<nat, nat>, usedU: set<nat>, nowU: set<nat>, usedK: set<nat>,
                  nowK: set<nat>, split: nat, v: nat, f: nat)
    requires OnFresh(pte, pde, usedU, nowU, usedK, nowK, split) && v !in pte && f !in nowU && f >= split
    ensures OnFresh(pte[v := f], pde, usedU, nowU + {f}, usedK, nowK, split)
  {
    ValuesGrow(pte, v, f);
    assert forall w :: w in pte ==> pte[w] in pte.Values;
  }

  lemma FreshTable(pte: map<nat, nat>, pde: map<nat, nat>, usedU: set<nat>, nowU: set<nat>, usedK: set<nat>,
                   nowK: set<nat>, split: nat, d: nat, f: nat)
    requires OnFresh(pte, pde, usedU, nowU, usedK, nowK, split) && d !in pde && f !in nowK && f < split
    ensures OnFresh(pte, pde[d := f], usedU, nowU, usedK, nowK + {f}, split)
  {
    ValuesGrow(pde, d, f);
  }

  lemma BytesStep(pte: map<nat, nat>, pde: map<nat, nat>, parentPte: map<nat, nat>, frames: map<nat, seq<bv8>>,
                  frames0: map<nat, seq<bv8>>, usedU: set<nat>, split: nat, v: nat, f: nat)
    requires BytesCopied(pte, pde, parentPte, frames, frames0) && v !in pte && f !in pte.Values
    requires v in parentPte && parentPte[v] in frames && parentPte[v] in usedU && parentPte[v] in frames0
    requires pte.Values !! usedU && f >= split
    requires parentPte[v] >= split && forall d :: d in pde ==> pde[d] < split
    ensures BytesCopied(pte[v := f], pde, parentPte, frames[f := frames[parentPte[v]]], frames0)
  {
    ValuesGrow(pte, v, f);
    var pte', frames' := pte[v := f], frames[f := frames[parentPte[v]]];
    forall w | w in pte' ensures SameContents(frames', frames0, pte'[w], parentPte, w) {
      if w != v {
        assert SameContents(frames, frames0, pte[w], parentPte, w) && pte[w] in pte.Values;
      }
    }
  }

  /** A frame that becomes a page table is no page frame any longer. */
  lemma BytesTable(pte: map<nat, nat>, pde: map<nat, nat>, parentPte: map<nat, nat>, frames: map<nat, seq<bv8>>,
                   frames0: map<nat, seq<bv8>>, split: nat, d: nat, f: nat)
    requires BytesCopied(pte, pde, parentPte, frames, frames0) && d !in pde && f < split
    requires forall v :: v in pte ==> pte[v] >= split
    ensures BytesCopied(pte, pde[d := f], parentPte, frames - {f}, frames0)
  {
    ValuesGrow(pde, d, f);
    forall w | w in pte ensures SameContents(frames - {f}, frames0, pte[w], parentPte, w) {
      assert SameContents(frames, frames0, pte[w], parentPte, w);
    }
  }

  lemma NotYet(s: seq<bool>, base: nat, n: nat, v: nat)
    requires v == base + n
    ensures !PageSet(s, base, n, v)
  {
  }

  lemma ReadyToCopy(pte: map<nat, nat>, pde: map<nat, nat>, parentPte: map<nat, nat>, frames: map<nat, seq<bv8>>,
                    frames0: map<nat, seq<bv8>>, usedU: set<nat>, nowU: set<nat>, usedK: set<nat>, nowK: set<nat>,
                    split: nat, v: nat)
    requires OnFresh(pte, pde, usedU, nowU, usedK, nowK, split) && BytesCopied(pte, pde, parentPte, frames, frames0)
    requires v in parentPte && parentPte[v] in usedU && parentPte[v] in frames0 && parentPte[v] >= split
    ensures parentPte[v] in frames && pte.Values !! usedU && pte.Values <= nowU
    ensures (forall d :: d in pde ==> pde[d] < split) && forall w :: w in pte ==> pte[w] >= split
  {
  }

  lemma StillValid(pte0: map<nat, nat>, pde0: map<nat, nat>, dir: PageDir, v: nat, f: nat, usedU: set<nat>,
                   nowU: set<nat>, usedK: set<nat>, nowK: set<nat>, split: nat)
    requires OnFresh(dir.pte, dir.pde, usedU, nowU, usedK, nowK, split)
    requires DirEntries(pte0, pde0) && dir.pte == pte0[v := f] && v / 1024 in dir.pde
    requires pde0.Keys <= dir.pde.Keys
    ensures dir.Valid()
  {
  }

  class Processes {
    const kernelPool: Pool
    const userPool: Pool
    const parent: PageDir     // the user halves of the two page directories
    const child: PageDir
    var active: PageDir       // the one page_dir_activate loaded last
    var frames: map<nat, seq<bv8>>  // what the frames that are no page tables hold, by address

    constructor (kernelPool: Pool, userPool: Pool, parent: PageDir, child: PageDir, frames: map<nat, seq<bv8>>)
      ensures this.kernelPool == kernelPool && this.userPool == userPool && this.parent == parent && this.child == child
      ensures active == parent && this.frames == frames
    {
      this.kernelPool, this.userPool, this.parent, this.child := kernelPool, userPool, parent, child;
      active, this.frames := parent, frames;
    }

    ghost predicate Shape() {
      && kernelPool.Valid() && userPool.Valid() && kernelPool.Limit() <= userPool.start
      && kernelPool.bitmap.bits != userPool.bitmap.bits && parent != child
    }

    /** The parent's pages are on frames of `used`, and those hold something. */
    ghost predicate ParentOn(used: set<nat>, frames: map<nat, seq<bv8>>)
      reads parent
    {
      forall v :: v in parent.pte ==> parent.pte[v] in used && parent.pte[v] in frames
    }

    /** What the copy has done after the first `n` pages of the bitmap `s`. */
    ghost predicate Copied(s: seq<bool>, base: nat, n: nat, frames0: map<nat, seq<bv8>>, usedU: set<nat>,
                           usedK: set<nat>)
      requires Shape() && n <= |s|
      reads this, parent, child, userPool.bitmap.bits, kernelPool.bitmap.bits
    {
      && active == parent && child.Valid()
      && MapCopied(child.pte, child.pde, s, base, n)
      && OnFresh(child.pte, child.pde, usedU, userPool.Used(), usedK, kernelPool.Used(), userPool.start)
      && BytesCopied(child.pte, child.pde, parent.pte, frames, frames0)
    }

    /** The steps a to e of copy_body_stack3 for one page. */
    method CopyPage(v: nat) returns (ok: bool)
      requires Shape() && active == parent && child.Valid() && v in parent.pte && parent.pte[v] in frames
      requires v !in child.pte
      modifies this, child, kernelPool.bitmap.bits, userPool.bitmap.bits
      ensures ok <==> old(userPool.Free()) > 0 && (v / 1024 in old(child.pde) || old(kernelPool.Free()) > 0)
      ensures ok ==>
        && active == parent && v in child.pte && child.pte == old(child.pte)[v := child.pte[v]]
        && child.pte[v] !in old(userPool.Used()) && userPool.Owns(child.pte[v])
        && userPool.Used() == old(userPool.Used()) + {child.pte[v]} && userPool.Free() == old(userPool.Free()) - 1
      ensures ok && v / 1024 in old(child.pde) ==>
        && child.pde == old(child.pde) && frames == old(frames)[child.pte[v] := old(frames[parent.pte[v]])]
        && kernelPool.Used() == old(kernelPool.Used()) && kernelPool.Free() == old(kernelPool.Free())
      ensures ok && v / 1024 !in old(child.pde) ==>
        && v / 1024 in child.pde && child.pde == old(child.pde)[v / 1024 := child.pde[v / 1024]]
        && frames == (old(frames) - {child.pde[v / 1024]})[child.pte[v] := old(frames[parent.pte[v]])]
        && child.pde[v / 1024] !in old(kernelPool.Used()) && kernelPool.Owns(child.pde[v / 1024])
        && kernelPool.Used() == old(kernelPool.Used()) + {child.pde[v / 1024]}
        && kernelPool.Free() == old(kernelPool.Free()) - 1
    {
      var bufPage := frames[active.pte[v]];
      active := child;
      var frame := userPool.Palloc();
      if frame == Halted {
        return false;
      }
      var hadTable := v / 1024 in active.pde;
      ok := active.Add(kernelPool, v, frame.value);
      if !ok {
        return false;
      }
      if !hadTable {
        frames := frames - {active.pde[v / 1024]};  // cleared, and page table entries from now on
      }
      frames := frames[active.pte[v] := bufPage];
      active := parent;
    }

    /** copy_body_stack3. The child gets exactly the parent's pages, each on a frame that was free, with the parent's
        contents; it halts exactly when the user pages or the page tables they need run out of frames. */
    method CopyBody(vaddrBtmp: array<bv8>, btmpBytesLen: nat, vaddrStart: nat) returns (ok: bool)
      requires Shape() && ParentOn(userPool.Used(), frames) && active == parent
      requires btmpBytesLen <= vaddrBtmp.Length && vaddrStart % PG_SIZE == 0
      requires vaddrBtmp != kernelPool.bitmap.bits && vaddrBtmp != userPool.bitmap.bits
      requires child.pte == map[] && child.pde == map[]
      requires forall v :: PageSet(BitsOf(vaddrBtmp[..btmpBytesLen]), Vpn(vaddrStart), 8 * btmpBytesLen, v) ==>
        v in parent.pte
      modifies this, child, kernelPool.bitmap.bits, userPool.bitmap.bits
      ensures var s := BitsOf(vaddrBtmp[..btmpBytesLen]);
        ok <==> old(userPool.Free()) >= CountSet(s, |s|) && old(kernelPool.Free()) >= |Tables(s, Vpn(vaddrStart), |s|)|
      ensures ok ==>
        var s := BitsOf(vaddrBtmp[..btmpBytesLen]);
        Copied(s, Vpn(vaddrStart), |s|, old(frames), old(userPool.Used()), old(kernelPool.Used()))
    {
      hide Copied, Pool.Used, Pool.Free, Pool.Owns, CountSet, Tables, BitsOf, BitOf, Mask, PageDir.Valid;
      ghost var s, base := BitsOf(vaddrBtmp[..btmpBytesLen]), Vpn(vaddrStart);
      ghost var frames0, usedU, usedK := frames, userPool.Used(), kernelPool.Used();
      ghost var freeU, freeK := userPool.Free(), kernelPool.Free();
      NothingCopied(s, base);
      var idxByte := 0;
      while idxByte < btmpBytesLen
        invariant 0 <= idxByte <= btmpBytesLen && ParentOn(usedU, frames0)
        invariant Copied(s, base, 8 * idxByte, frames0, usedU, usedK)
        invariant freeU == userPool.Free() + CountSet(s, 8 * idxByte)
        invariant freeK == kernelPool.Free() + |Tables(s, base, 8 * idxByte)|
      {
        BitsOfByte(vaddrBtmp[..btmpBytesLen], idxByte);
        if vaddrBtmp[idxByte] != 0 {
          ok := CopyByte(vaddrBtmp[idxByte], idxByte, vaddrStart, s, frames0, usedU, usedK, freeU, freeK);
          if !ok {
            CountSetGrows(s, 8 * idxByte + 8, |s|);
            TablesGrow(s, base, 8 * idxByte + 8, |s|);
            return false;
          }
        } else {
          NoneCopied(s, base, 8 * idxByte, 8 * idxByte + 8, frames0, usedU, usedK);
        }
        idxByte := idxByte + 1;
      }
      ok := true;
    }

    /** The inner loop, over the bits of one byte. */
    method CopyByte(b: bv8, idxByte: nat, vaddrStart: nat, ghost s: seq<bool>, ghost frames0: map<nat, seq<bv8>>,
                    ghost usedU: set<nat>, ghost usedK: set<nat>, ghost freeU: nat, ghost freeK: nat) returns (ok: bool)
      requires Shape() && ParentOn(usedU, frames0) && vaddrStart % PG_SIZE == 0 && 8 * idxByte + 8 <= |s|
      requires forall k :: 0 <= k < 8 ==> s[8 * idxByte + k] == BitOf(b, k)
      requires Copied(s, Vpn(vaddrStart), 8 * idxByte, frames0, usedU, usedK)
      requires forall v :: PageSet(s, Vpn(vaddrStart), |s|, v) ==> v in parent.pte
      requires freeU == userPool.Free() + CountSet(s, 8 * idxByte)
      requires freeK == kernelPool.Free() + |Tables(s, Vpn(vaddrStart), 8 * idxByte)|
      modifies this, child, kernelPool.bitmap.bits, userPool.bitmap.bits
      ensures !ok ==> freeU < CountSet(s, 8 * idxByte + 8) || freeK < |Tables(s, Vpn(vaddrStart), 8 * idxByte + 8)|
      ensures ok ==>
        && Copied(s, Vpn(vaddrStart), 8 * idxByte + 8, frames0, usedU, usedK)
        && freeU == userPool.Free() + CountSet(s, 8 * idxByte + 8)
        && freeK == kernelPool.Free() + |Tables(s, Vpn(vaddrStart), 8 * idxByte + 8)|
    {
      hide Copied, Pool.Used, Pool.Free, Pool.Owns, CountSet, Tables, Mask, PageDir.Valid;
      ghost var base := Vpn(vaddrStart);
      var idxBit := 0;
      while idxBit < 8
        invariant 0 <= idxBit <= 8 && ParentOn(usedU, frames0)
        invariant Copied(s, base, 8 * idxByte + idxBit, frames0, usedU, usedK)
        invariant freeU == userPool.Free() + CountSet(s, 8 * idxByte + idxBit)
        invariant freeK == kernelPool.Free() + |Tables(s, base, 8 * idxByte + idxBit)|
      {
        ghost var i := 8 * idxByte + idxBit;
        assert s[i] == BitOf(b, idxBit);
        if b & Mask(idxBit) != 0 {
          var progVaddr := (idxByte * 8 + idxBit) * PG_SIZE + vaddrStart;
          assert progVaddr / PG_SIZE == base + i;
          ok := CopySet(progVaddr / PG_SIZE, s, base, i, frames0, usedU, usedK);
          OneSet(s, base, i);
          if !ok {
            CountSetGrows(s, i + 1, 8 * idxByte + 8);
            TablesGrow(s, base, i + 1, 8 * idxByte + 8);
            return false;
          }
        } else {
          NoneCopied(s, base, i, i + 1, frames0, usedU, usedK);
        }
        idxBit := idxBit + 1;
      }
      ok := true;
    }

    /** One set bit: its page is copied. */
    method CopySet(v: nat, ghost s: seq<bool>, ghost base: nat, ghost i: nat, ghost frames0: map<nat, seq<bv8>>,
                   ghost usedU: set<nat>, ghost usedK: set<nat>) returns (ok: bool)
      requires Shape() && ParentOn(usedU, frames0) && i < |s| && s[i] && v == base + i && v in parent.pte
      requires Copied(s, base, i, frames0, usedU, usedK)
      modifies this, child, kernelPool.bitmap.bits, userPool.bitmap.bits
      ensures ok <==> old(userPool.Free()) > 0 && (v / 1024 in Tables(s, base, i) || old(kernelPool.Free()) > 0)
      ensures ok ==>
        && Copied(s, base, i + 1, frames0, usedU, usedK)
        && userPool.Free() == old(userPool.Free()) - 1
        && kernelPool.Free() == old(kernelPool.Free()) - (if v / 1024 in Tables(s, base, i) then 0 else 1)
    {
      hide Pool.Used, Pool.Free, CountSet, Tables, OnFresh, BytesCopied, PageSet, DirEntries, Pool.Limit;
      ghost var pte0, pde0, nowU, nowK, f0 := child.pte, child.pde, userPool.Used(), kernelPool.Used(), frames;
      OneSet(s, base, i);
      NotYet(s, base, i, v);
      ParentAbove(parent.pte[v], usedU, usedK);
      ReadyToCopy(pte0, pde0, parent.pte, f0, frames0, usedU, nowU, usedK, nowK, userPool.start, v);
      ok := CopyPage(v);
      if ok {
        ghost var f := child.pte[v];
        FreshPage(pte0, pde0, usedU, nowU, usedK, nowK, userPool.start, v, f);
        if v / 1024 !in pde0 {
          FreshTable(child.pte, pde0, usedU, nowU + {f}, usedK, nowK, userPool.start, v / 1024, child.pde[v / 1024]);
          BytesTable(pte0, pde0, parent.pte, f0, frames0, userPool.start, v / 1024, child.pde[v / 1024]);
          f0 := f0 - {child.pde[v / 1024]};
        } else {
          assert Tables(s, base, i + 1) == Tables(s, base, i);
        }
        BytesStep(pte0, child.pde, parent.pte, f0, frames0, usedU, userPool.start, v, f);
        StillValid(pte0, pde0, child, v, f, usedU, userPool.Used(), usedK, kernelPool.Used(), userPool.start);
      }
    }

    /** A frame the parent uses is one of the user pool. */
    lemma ParentAbove(f: nat, usedU: set<nat>, usedK: set<nat>)
      requires Shape() && f in usedU
      requires OnFresh(child.pte, child.pde, usedU, userPool.Used(), usedK, kernelPool.Used(), userPool.start)
      ensures f >= userPool.start
    {
      assert f in userPool.Used();
    }

    lemma NothingCopied(s: seq<bool>, base: nat)
      requires Shape() && active == parent && child.pte == map[] && child.pde == map[]
      ensures Copied(s, base, 0, frames, userPool.Used(), kernelPool.Used())
      ensures CountSet(s, 0) == 0 && |Tables(s, base, 0)| == 0
    {
    }

    lemma NoneCopied(s: seq<bool>, base: nat, i: nat, j: nat, frames0: map<nat, seq<bv8>>, usedU: set<nat>,
                     usedK: set<nat>)
      requires Shape() && i <= j <= |s| && (forall k :: i <= k < j ==> !s[k])
      requires Copied(s, base, i, frames0, usedU, usedK)
      ensures Copied(s, base, j, frames0, usedU, usedK)
      ensures CountSet(s, j) == CountSet(s, i) && Tables(s, base, j) == Tables(s, base, i)
    {
      NoneSet(s, base, i, j);
    }
  }

  /** The bits of one byte of the bitmap. */
  lemma BitsOfByte(bytes: seq<bv8>, i: nat)
    requires i < |bytes|
    ensures forall k :: 0 <= k < 8 ==> BitsOf(bytes)[8 * i + k] == BitOf(bytes[i], k)
    ensures bytes[i] == 0 ==> forall k :: 8 * i <= k < 8 * i + 8 ==> !BitsOf(bytes)[k]
  {
    BitsAt(bytes);
    forall k | 0 <= k < 8 ensures BitsOf(bytes)[8 * i + k] == BitOf(bytes[i], k) {
      assert (8 * i + k) / 8 == i && (8 * i + k) % 8 == k;
    }
    forall k | 8 * i <= k < 8 * i + 8 ensures BitsOf(bytes)[k] == BitOf(bytes[i], k - 8 * i) {
      assert k == 8 * i + (k - 8 * i);
    }
  }

  /** What a fork gives: the child has exactly the parent's pages, with the parent's contents, on frames of its own. */
  lemma ForkResult(m: Processes, s: seq<bool>, base: nat, frames0: map<nat, seq<bv8>>, usedU: set<nat>, usedK: set<nat>)
    requires m.Shape() && m.ParentOn(usedU, frames0) && m.Copied(s, base, |s|, frames0, usedU, usedK)
    ensures forall v: nat :: v in m.child.pte <==> base <= v < base + |s| && s[v - base]
    ensures forall v :: v in m.child.pte ==>
      && v in m.parent.pte && m.child.pte[v] in m.frames && m.frames[m.child.pte[v]] == frames0[m.parent.pte[v]]
      && m.child.pte[v] !in usedU
    ensures forall v, w :: v in m.child.pte && w in m.child.pte && v != w ==> m.child.pte[v] != m.child.pte[w]
    ensures forall v, w :: v in m.child.pte && w in m.parent.pte ==> m.child.pte[v] != m.parent.pte[w]
    ensures forall v :: v in m.parent.pte ==>
      m.parent.pte[v] in m.frames && m.frames[m.parent.pte[v]] == frames0[m.parent.pte[v]]
  {
    forall v | v in m.child.pte ensures m.child.pte[v] !in usedU {
      assert m.child.pte[v] in m.child.pte.Values;
    }
  }
}
