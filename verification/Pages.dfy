/** The page manager of kernel/memory.c: frame pools, page tables and the kernel's virtual pages. */
module Pages {
  import opened Bitmaps
  import opened Outcomes

  const PG_SIZE: nat := 4096

  // ---------------------------------------------------------------- address arithmetic

  function Vpn(vaddr: nat): nat {
    vaddr / PG_SIZE
  }

  /** pte_ptr: through the directory entry that maps the page tables themselves. */
  function PtePtr(vaddr: nat): nat
    requires vaddr < 0x1_0000_0000
  {
    0xffc00000 + vaddr / 0x400000 * 0x1000 + vaddr % 0x400000 / 0x1000 * 4
  }

  /** One page table entry per virtual page, so a map from page numbers stands for the tables. */
  lemma PtePtrByPage(v: nat, w: nat)
    requires v < 0x1_0000_0000 && w < 0x1_0000_0000
    ensures PtePtr(v) == PtePtr(w) <==> Vpn(v) == Vpn(w)
  {
    PtePtrIsIndex(v);
    PtePtrIsIndex(w);
  }

  lemma PtePtrIsIndex(v: nat)
    requires v < 0x1_0000_0000
    ensures PtePtr(v) == 0xffc00000 + 4 * Vpn(v)
  {
    var a, b, c := v / 0x400000, v % 0x400000 / 0x1000, v % 0x1000;
    assert v == 0x400000 * a + v % 0x400000;
    assert v % 0x400000 == 0x1000 * b + v % 0x400000 % 0x1000;
    assert v == 0x1000 * (0x400 * a + b) + v % 0x400000 % 0x1000;
    assert v / 0x1000 == 0x400 * a + b;
  }

  /** The address the user branch of vaddr_get computes, and the one it is after. */
  function UserVaddr(start: nat, idx: nat): nat {
    start + idx + PG_SIZE
  }

  function IntendedVaddr(start: nat, idx: nat): nat {
    start + idx * PG_SIZE
  }

  /** No index makes the user branch right, and only every 4096th index gives a page at all. */
  lemma UserVaddrNeverRight(start: nat, idx: nat)
    requires start % PG_SIZE == 0
    ensures UserVaddr(start, idx) != IntendedVaddr(start, idx)
    ensures UserVaddr(start, idx) % PG_SIZE == 0 <==> idx % PG_SIZE == 0
  {
    assert idx * 4095 != 4096;
  }

  // ---------------------------------------------------------------- frame pools

  ghost predicate FrameSet(start: nat, s: seq<bool>, f: nat) {
    start <= f < start + |s| * PG_SIZE && (f - start) % PG_SIZE == 0 && s[(f - start) / PG_SIZE]
  }

  /** The frames whose bits are set, by physical address. */
  ghost function UsedOf(start: nat, s: seq<bool>): set<nat> {
    set f: nat | f < start + |s| * PG_SIZE && FrameSet(start, s, f)
  }

  lemma UsedUpdate(start: nat, s: seq<bool>, i: nat, v: bool)
    requires i < |s|
    ensures UsedOf(start, s[i := v]) ==
      if v then UsedOf(start, s) + {start + i * PG_SIZE} else UsedOf(start, s) - {start + i * PG_SIZE}
  {
    var f := start + i * PG_SIZE;
    assert (f - start) / PG_SIZE == i && (f - start) % PG_SIZE == 0;
    forall g: nat ensures FrameSet(start, s[i := v], g) <==> if g == f then v else FrameSet(start, s, g) {
      if start <= g && (g - start) % PG_SIZE == 0 && (g - start) / PG_SIZE == i {
        assert g == f;
      }
    }
  }

  class Pool {
    const bitmap: Bitmap
    const start: nat  // phy_addr_start

    constructor (bitmap: Bitmap, start: nat)
      requires bitmap.Valid() && start % PG_SIZE == 0
      ensures Valid() && this.bitmap == bitmap && this.start == start
    {
      this.bitmap, this.start := bitmap, start;
    }

    ghost predicate Valid() {
      bitmap.Valid() && start % PG_SIZE == 0
    }

    ghost function Limit(): nat {
      start + 8 * bitmap.bytesLen * PG_SIZE
    }

    ghost predicate Owns(f: nat) {
      start <= f < Limit() && f % PG_SIZE == 0
    }

    ghost function Used(): set<nat>
      reads bitmap.bits
      requires Valid()
    {
      UsedOf(start, bitmap.Map())
    }

    ghost function Free(): nat
      reads bitmap.bits
      requires Valid()
    {
      FreeCount(bitmap.Map())
    }

    /** palloc: since bitmap_scan asserts on a full map, it never gets to return NULL. */
    method Palloc() returns (r: Outcome<nat>)
      requires Valid()
      modifies bitmap.bits
      ensures r == Halted <==> old(Free()) == 0
      ensures r == Halted ==> unchanged(bitmap.bits)
      ensures r != Null
      ensures r.Done? ==>
        && Owns(r.value) && r.value !in old(Used()) && Used() == old(Used()) + {r.value}
        && Free() == old(Free()) - 1
        && forall g: nat :: g < r.value && Owns(g) ==> g in old(Used())
    {
      ghost var s := bitmap.Map();
      FreeCountZero(s);
      var scan := bitmap.Scan(1);
      match scan {
        case Panicked => return Halted;
        case NotFound =>
          FirstFree(s);
          assert false;
          return Null;
        case Found(idx) =>
          assert FreeRun(s, idx, 1) && !s[idx];
          bitmap.Set(idx, true);
          assert bitmap.Map() == s[idx := true];
          UsedUpdate(start, s, idx, true);
          FreeCountUpdate(s, idx, true);
          r := Done(start + idx * PG_SIZE);
          LowestFrame(s, idx);
      }
    }

    lemma FirstFree(s: seq<bool>)
      requires !AllSet(s)
      ensures exists j: nat :: FreeRun(s, j, 1)
    {
      var k :| 0 <= k < |s| && !s[k];
      assert FreeRun(s, k, 1);
    }

    lemma LowestFrame(s: seq<bool>, idx: nat)
      requires Valid() && |s| == 8 * bitmap.bytesLen && FirstFit(s, 1, idx)
      ensures forall g: nat :: g < start + idx * PG_SIZE && Owns(g) ==> g in UsedOf(start, s)
    {
      forall g: nat | g < start + idx * PG_SIZE && Owns(g) ensures g in UsedOf(start, s) {
        var j := (g - start) / PG_SIZE;
        assert (g - start) % PG_SIZE == 0 && j < idx;
        assert !FreeRun(s, j, 1);
      }
    }

    /** The part of pfree that works on the pool it has chosen. */
    method Release(f: nat)
      requires Valid() && Owns(f)
      modifies bitmap.bits
      ensures Used() == old(Used()) - {f}
      ensures f in old(Used()) ==> Free() == old(Free()) + 1
    {
      var idx := (f - start) / PG_SIZE;
      ghost var s := bitmap.Map();
      bitmap.Set(idx, false);
      assert bitmap.Map() == s[idx := false];
      assert start + idx * PG_SIZE == f;
      UsedUpdate(start, s, idx, false);
      FreeCountUpdate(s, idx, false);
    }
  }

  // ---------------------------------------------------------------- page directories

  /** Every page has a table, and no frame serves twice. */
  ghost predicate DirEntries(pte: map<nat, nat>, pde: map<nat, nat>) {
    && (forall v :: v in pte ==> v / 1024 in pde)
    && (forall v, w :: v in pte && w in pte && v != w ==> pte[v] != pte[w])
    && (forall v, d :: v in pte && d in pde ==> pte[v] != pde[d])
  }

  /** Present entries of a directory and of the tables it refers to. */
  class PageDir {
    var pde: map<nat, nat>  // directory index -> frame of the page table
    var pte: map<nat, nat>  // virtual page number -> frame

    ghost predicate Valid()
      reads this
    {
      DirEntries(pte, pde)
    }

    /** page_table_add; false when an assertion fails, or when there is no frame for a new table. */
    method Add(kernelPool: Pool, vpn: nat, frame: nat) returns (ok: bool)
      requires Valid() && kernelPool.Valid()
      modifies this, kernelPool.bitmap.bits
      ensures ok <==> if vpn / 1024 in old(pde) then vpn !in old(pte) else old(kernelPool.Free()) > 0
      ensures ok ==> pte == old(pte)[vpn := frame]
      ensures ok && vpn / 1024 in old(pde) ==>
        pde == old(pde) && kernelPool.Used() == old(kernelPool.Used()) && kernelPool.Free() == old(kernelPool.Free())
      ensures ok && vpn / 1024 !in old(pde) ==>
        && vpn / 1024 in pde && pde == old(pde)[vpn / 1024 := pde[vpn / 1024]]
        && pde[vpn / 1024] !in old(kernelPool.Used()) && kernelPool.Owns(pde[vpn / 1024])
        && kernelPool.Used() == old(kernelPool.Used()) + {pde[vpn / 1024]}
        && kernelPool.Free() == old(kernelPool.Free()) - 1
    {
      var d := vpn / 1024;
      if d in pde {
        if vpn in pte {
          return false;
        }
        pte := pte[vpn := frame];
      } else {
        var table := kernelPool.Palloc();
        if table == Halted {
          return false;
        }
        pde := pde[d := table.value];
        ghost var was := pte;
        pte := map v | v in pte && v / 1024 != d :: pte[v];  // the new table is cleared
        assert pte == was;
        pte := pte[vpn := frame];
      }
      ok := true;
    }

    /** page_table_pte_remove */
    method Remove(vpn: nat)
      requires Valid()
      modifies this`pte
      ensures Valid() && pte == old(pte) - {vpn}
    {
      pte := pte - {vpn};
    }
  }
}
