/** The user half of an address space: get_a_page, malloc_page(PF_USER) and mfree_page(PF_USER) of kernel/memory.c.
    Pages are on frames of the user pool, page tables on frames of the kernel pool. */
module UserPages {
  import opened Bitmaps
  import opened Outcomes
  import opened Pages
  import opened KernelPages

  class UserSpace {
    const kernelPool: Pool
    const userPool: Pool
    const vaddr: Bitmap  // userprog_vaddr.vaddr_bitmap
    const start: nat     // userprog_vaddr.vaddr_start
    const dir: PageDir   // the entries below 0xc0000000

    /** The user half of a new process: nothing is mapped and the bit map is clear. */
    constructor (kernelPool: Pool, userPool: Pool, vaddr: Bitmap, start: nat, dir: PageDir)
      requires kernelPool.Valid() && userPool.Valid() && vaddr.Valid()
      requires 0x102000 <= kernelPool.start && kernelPool.Limit() <= userPool.start
      requires start % PG_SIZE == 0 && start + (8 * vaddr.bytesLen + 8) * PG_SIZE <= 0x1_0000_0000
      requires kernelPool.bitmap.bits != userPool.bitmap.bits
      requires vaddr.bits != kernelPool.bitmap.bits && vaddr.bits != userPool.bitmap.bits
      requires dir.pte == map[] && dir.pde == map[] && Bitmap.AllFree(vaddr.Map())
      ensures Sound() && BitsMatch() && this.kernelPool == kernelPool && this.userPool == userPool
      ensures this.vaddr == vaddr && this.start == start && this.dir == dir
    {
      this.kernelPool, this.userPool, this.vaddr := kernelPool, userPool, vaddr;
      this.start, this.dir := start, dir;
      new;
      assert forall i :: 0 <= i < 8 * vaddr.bytesLen ==> vaddr.Bits()[i] == vaddr.Map()[i];
    }

    ghost function Base(): nat {
      Vpn(start)
    }

    ghost predicate Shape() {
      && kernelPool.Valid() && userPool.Valid() && vaddr.Valid()
      && 0x102000 <= kernelPool.start && kernelPool.Limit() <= userPool.start
      && start % PG_SIZE == 0 && start + (8 * vaddr.bytesLen + 8) * PG_SIZE <= 0x1_0000_0000
      && kernelPool.bitmap.bits != userPool.bitmap.bits
      && vaddr.bits != kernelPool.bitmap.bits && vaddr.bits != userPool.bitmap.bits
    }

    ghost predicate FramesUsed()
      requires Shape()
      reads dir, kernelPool.bitmap.bits, userPool.bitmap.bits
    {
      Framed(dir.pte, dir.pde, userPool.Used(), kernelPool.Used())
    }

    ghost predicate Framed(pte: map<nat, nat>, pde: map<nat, nat>, used: set<nat>, kept: set<nat>) {
      && (forall v :: v in pte ==> pte[v] in used && userPool.Owns(pte[v]))
      && (forall d :: d in pde ==> pde[d] in kept && kernelPool.Owns(pde[d]))
    }

    /** A page of the user half is mapped exactly when its virtual bit is set. */
    ghost predicate BitsMatch()
      requires Shape()
      reads dir, vaddr.bits
    {
      Matches(dir.pte, vaddr.Bits())
    }

    ghost predicate Matches(pte: map<nat, nat>, bits: seq<bool>) {
      && (forall i :: 0 <= i < 8 * vaddr.bytesLen && i < |bits| && bits[i] ==> Base() + i in pte)
      && (forall v :: v in pte ==> Base() <= v < Base() + |bits| && bits[v - Base()])
    }

    ghost predicate Sound()
      reads dir, kernelPool.bitmap.bits, userPool.bitmap.bits
    {
      Shape() && dir.Valid() && FramesUsed()
    }

    /** Different pages are on different frames, each marked in the one pool whose range holds it; a page table's
        frame is marked in the other. */
    lemma PageMapSound(v: nat, w: nat, d: nat)
      requires Sound() && v in dir.pte && w in dir.pte && d in dir.pde
      ensures dir.pte[v] == dir.pte[w] <==> v == w
      ensures dir.pte[v] in userPool.Used() && userPool.Owns(dir.pte[v]) && !kernelPool.Owns(dir.pte[v])
      ensures dir.pde[d] in kernelPool.Used() && kernelPool.Owns(dir.pde[d]) && !userPool.Owns(dir.pde[d])
    {
    }

    // -------------------------------------------------------------- one page

    /** palloc from the user pool and page_table_add, as get_a_page and the loop of malloc_page do it. */
    method MapPage(v: nat) returns (ok: bool)
      requires Sound()
      modifies dir, kernelPool.bitmap.bits, userPool.bitmap.bits
      ensures ok <==>
        && old(userPool.Free()) > 0
        && if v / 1024 in old(dir.pde) then v !in old(dir.pte) else old(kernelPool.Free()) > 0
      ensures ok ==> Sound() && userPool.Free() == old(userPool.Free()) - 1
      ensures ok ==>
        && v !in old(dir.pte) && v in dir.pte && dir.pte == old(dir.pte)[v := dir.pte[v]]
        && userPool.Owns(dir.pte[v]) && dir.pte[v] !in old(userPool.Used())
        && userPool.Used() == old(userPool.Used()) + {dir.pte[v]}
      ensures ok ==>
        && TablesAdded(old(dir.pde), dir.pde) && dir.pde.Keys == old(dir.pde).Keys + {v / 1024}
        && NewTables(old(dir.pde), dir.pde) !! old(kernelPool.Used())
        && kernelPool.Used() == old(kernelPool.Used()) + NewTables(old(dir.pde), dir.pde)
        && kernelPool.Free() == old(kernelPool.Free()) - (if v / 1024 in old(dir.pde) then 0 else 1)
    {
      hide Pool.Used, Pool.Free, Pool.Owns, Pool.Limit, TablesAdded, NewTables, Framed;
      PoolsApart();
      OldTable(v);
      ghost var pte0, pde0, used0, kept0 := dir.pte, dir.pde, userPool.Used(), kernelPool.Used();
      var frame := userPool.Palloc();
      if frame == Halted {
        return false;
      }
      ok := dir.Add(kernelPool, v, frame.value);
      if ok {
        OneTable(pde0, dir.pde, v / 1024);
        PageMapped(pte0, pde0, dir.pde, used0, kept0, userPool.Used(), kernelPool.Used(), v, frame.value);
      }
    }

    /** A page on a new frame, and perhaps a new table, keep the directory well-formed. */
    lemma PageMapped(pte: map<nat, nat>, pde0: map<nat, nat>, pde: map<nat, nat>, used0: set<nat>, kept0: set<nat>,
                     used: set<nat>, kept: set<nat>, v: nat, f: nat)
      requires Shape() && Framed(pte, pde0, used0, kept0) && DirEntries(pte, pde0)
      requires f !in used0 && userPool.Owns(f) && used == used0 + {f} && kept0 <= kept
      requires v !in pte && v / 1024 in pde
      requires pde == pde0 || (pde == pde0[v / 1024 := pde[v / 1024]] && pde[v / 1024] in kept
                               && kernelPool.Owns(pde[v / 1024]) && v / 1024 !in pde0)
      ensures Framed(pte[v := f], pde, used, kept) && DirEntries(pte[v := f], pde)
    {
      PoolsApart();
      hide Pool.Owns;
    }

    lemma PoolsApart()
      requires Shape()
      ensures forall f :: !(kernelPool.Owns(f) && userPool.Owns(f))
    {
    }

    lemma OneTable(pde0: map<nat, nat>, pde: map<nat, nat>, d: nat)
      requires d in pde && if d in pde0 then pde == pde0 else pde == pde0[d := pde[d]]
      ensures TablesAdded(pde0, pde) && pde.Keys == pde0.Keys + {d}
      ensures NewTables(pde0, pde) == if d in pde0 then {} else {pde[d]}
    {
    }

    /** The index of the bit of an address, in unsigned 32-bit arithmetic. */
    function BitIndex(va: nat): nat {
      (va + 0x1_0000_0000 - start) % 0x1_0000_0000 / PG_SIZE
    }

    lemma BitOfPage(va: nat)
      requires Shape() && va < 0x1_0000_0000 && BitIndex(va) < 8 * vaddr.bits.Length
      ensures start <= va && Vpn(va) == Base() + BitIndex(va)
    {
      var n := vaddr.bytesLen;
      assert start == Base() * PG_SIZE;
      assert va < start ==> va + 0x1_0000_0000 - start >= (8 * n + 8) * PG_SIZE;
    }

    /** get_a_page(PF_USER, va) of a process. The page of the first bit is refused by ASSERT(bit_idx > 0). */
    method GetAPage(va: nat) returns (r: Outcome<nat>)
      requires Sound() && BitsMatch() && va < 0x1_0000_0000 && BitIndex(va) < 8 * vaddr.bits.Length
      modifies dir, kernelPool.bitmap.bits, userPool.bitmap.bits, vaddr.bits
      ensures r == Halted <==>
        || Vpn(va) == Base() || Vpn(va) in old(dir.pte) || old(userPool.Free()) == 0
        || (Vpn(va) / 1024 !in old(dir.pde) && old(kernelPool.Free()) == 0)
      ensures r != Null
      ensures r.Done? ==> Sound() && BitsMatch() && r.value == va
      ensures r.Done? ==>
        var v := Vpn(va);
        && v in dir.pte && dir.pte == old(dir.pte)[v := dir.pte[v]] && dir.pte[v] !in old(userPool.Used())
        && userPool.Used() == old(userPool.Used()) + {dir.pte[v]}
        && kernelPool.Used() == old(kernelPool.Used()) + NewTables(old(dir.pde), dir.pde)
        && vaddr.Bits() == old(vaddr.Bits())[v - Base() := true]
    {
      hide PageDir.Valid, FramesUsed, TablesAdded, NewTables, Matches, Pool.Used, Pool.Free, Pool.Owns;
      BitOfPage(va);
      var bitIdx := BitIndex(va);
      if bitIdx == 0 {
        return Halted;
      }
      OldTable(va / PG_SIZE);
      ghost var pte, bits := dir.pte, vaddr.Bits();
      vaddr.Set(bitIdx, true);
      var ok := MapPage(va / PG_SIZE);
      if !ok {
        return Halted;
      }
      PageSet(pte, dir.pte, bits, va / PG_SIZE);
      r := Done(va);
    }

    lemma PageSet(pte: map<nat, nat>, pte': map<nat, nat>, bits: seq<bool>, v: nat)
      requires Shape() && Matches(pte, bits) && |bits| == 8 * vaddr.bytesLen + 8 && Base() <= v < Base() + |bits|
      requires pte'.Keys == pte.Keys + {v}
      ensures Matches(pte', bits[v - Base() := true])
    {
    }

    lemma OldTable(v: nat)
      requires dir.Valid()
      ensures v in dir.pte ==> v / 1024 in dir.pde
    {
    }

    // -------------------------------------------------------------- malloc_page

    /** The loop of malloc_page(PF_USER, cnt) from page v on. */
    method MapPages(v: nat, cnt: nat) returns (ok: bool)
      requires Sound()
      modifies dir, kernelPool.bitmap.bits, userPool.bitmap.bits
      ensures ok <==>
        && old(userPool.Free()) >= cnt
        && (forall u :: v <= u < v + cnt ==> u !in old(dir.pte))
        && old(kernelPool.Free()) >= Needed(old(dir.pde).Keys, v, cnt) - cnt
      ensures ok ==> Sound() && PagesAdded(old(dir.pte), dir.pte, v, cnt)
      ensures ok ==>
        && userPool.Used() == old(userPool.Used()) + Behind(dir.pte, v, cnt)
        && old(userPool.Used()) !! Behind(dir.pte, v, cnt)
        && TablesAdded(old(dir.pde), dir.pde)
        && kernelPool.Used() == old(kernelPool.Used()) + NewTables(old(dir.pde), dir.pde)
        && old(kernelPool.Used()) !! NewTables(old(dir.pde), dir.pde)
    {
      hide PageDir.Valid, FramesUsed, PagesAdded, NewTables, TablesAdded, Needed, Behind, Took;
      hide Pool.Used, Pool.Free, Pool.Owns, Pool.Limit;
      ghost var pte0, pde0, used0, kept0 := dir.pte, dir.pde, userPool.Used(), kernelPool.Used();
      ghost var free0, kfree0 := userPool.Free(), kernelPool.Free();
      ghost var total := Needed(pde0.Keys, v, cnt);
      ghost var left := total;
      var done := 0;
      TookNothing(pte0, pde0, used0, kept0, v);
      while done < cnt
        invariant 0 <= done <= cnt
        invariant Sound()
        invariant Took(pte0, pde0, used0, kept0, dir.pte, dir.pde, userPool.Used(), kernelPool.Used(), v, done)
        invariant left == Needed(dir.pde.Keys, v + done, cnt - done)
        invariant free0 == userPool.Free() + done
        invariant kfree0 + left + done == kernelPool.Free() + total
      {
        ghost var pte, pde, used, kept, here := dir.pte, dir.pde, userPool.Used(), kernelPool.Used(), v + done;
        ghost var tables := pde.Keys + {here / 1024};
        NeededStep(pde.Keys, here, cnt - done);
        TookMapped(pte0, pde0, used0, kept0, pte, pde, used, kept, v, done);
        OldTable(here);
        ok := MapPage(v + done);
        if !ok {
          return false;
        }
        TookMore(pte0, pde0, used0, kept0, pte, pde, used, kept, v, done, dir.pde, kernelPool.Used(), dir.pte[here]);
        assert dir.pde.Keys == tables;
        left := Needed(tables, here + 1, cnt - done - 1);
        done := done + 1;
      }
      NeededNone(dir.pde.Keys, v + cnt);
      TookAll(pte0, pde0, used0, kept0, dir.pte, dir.pde, userPool.Used(), kernelPool.Used(), v, cnt);
      ok := true;
    }

    // -------------------------------------------------------------- vaddr_get and malloc_page

    /** malloc_page(PF_USER, cnt). The virtual bits it sets are those of pages Base() + idx on; the pages it maps are
        the ones the address of the user branch of vaddr_get is in. */
    method MallocPage(cnt: nat) returns (r: Outcome<nat>, ghost idx: nat)
      requires Sound() && start + 8 * vaddr.bytesLen * PG_SIZE <= 0xc0000000
      modifies dir, kernelPool.bitmap.bits, userPool.bitmap.bits, vaddr.bits
      ensures r == Halted <==>
        || !(0 < cnt < 3840) || AllSet(old(vaddr.Map()))
        || exists i: nat ::
             && ScanSpec(old(vaddr.Bits()), 8 * vaddr.bytesLen, cnt, Found(i))
             && Stops(old(dir.pte), old(dir.pde), old(userPool.Free()), old(kernelPool.Free()),
                      Vpn(UserVaddr(start, i)), cnt)
      ensures r == Null ==>
        && (forall j: nat :: !FreeRun(old(vaddr.Map()), j, cnt))
        && unchanged(dir) && unchanged(kernelPool.bitmap.bits) && unchanged(userPool.bitmap.bits)
        && unchanged(vaddr.bits)
      ensures r.Done? ==>
        && ScanSpec(old(vaddr.Bits()), 8 * vaddr.bytesLen, cnt, Found(idx)) && FreeRun(old(vaddr.Bits()), idx, cnt)
        && r.value == UserVaddr(start, idx) && idx + cnt <= 8 * vaddr.bytesLen + 1
        && Sound() && PagesAdded(old(dir.pte), dir.pte, Vpn(r.value), cnt)
        && userPool.Used() == old(userPool.Used()) + Behind(dir.pte, Vpn(r.value), cnt)
        && kernelPool.Used() == old(kernelPool.Used()) + NewTables(old(dir.pde), dir.pde)
        && |vaddr.Bits()| == |old(vaddr.Bits())|
        && forall k :: 0 <= k < |vaddr.Bits()| ==>
             vaddr.Bits()[k] == if idx <= k < idx + cnt then true else old(vaddr.Bits())[k]
      ensures r.Done? && old(BitsMatch()) ==>
        (BitsMatch() <==> old(vaddr.Bits())[0] && FreeRun(old(vaddr.Bits()), 1, cnt))
    {
      hide Matches;
      hide PageDir.Valid, FramesUsed, PagesAdded, NewTables, TablesAdded, Needed, Behind, ScanSpec, FreeRun;
      hide Pool.Used, Pool.Free, Pool.Owns, Pool.Limit;
      idx := 0;
      if !(0 < cnt < 3840) {
        return Halted, idx;
      }
      ghost var pte, s, n := dir.pte, vaddr.Bits(), 8 * vaddr.bytesLen;
      var scan := vaddr.Scan(cnt);
      ScanCases(s, n, cnt, scan);
      match scan {
        case Panicked => return Halted, idx;
        case NotFound => return Null, idx;
        case Found(bit) =>
          idx := bit;
          vaddr.SetRun(bit, cnt, true);
          UserRoom(bit);
          var va := UserVaddr(start, bit);
          if va >= 0xc0000000 - PG_SIZE {
            assert false;
          }
          var ok := MapPages(va / PG_SIZE, cnt);
          if !ok {
            return Halted, idx;
          }
          if Matches(pte, s) {
            MallocMatchesIff(pte, dir.pte, s, vaddr.Bits(), bit, cnt);
          }
          r := Done(va);
      }
    }

    /** The loop of malloc_page stops at an assertion. */
    ghost predicate Stops(pte: map<nat, nat>, pde: map<nat, nat>, frames: nat, tables: nat, v: nat, cnt: nat) {
      || frames < cnt || tables < Needed(pde.Keys, v, cnt) - cnt
      || exists u :: v <= u < v + cnt && u in pte
    }

    lemma ScanCases(s: seq<bool>, n: nat, cnt: nat, a: ScanResult)
      requires n < |s| && cnt >= 1 && ScanSpec(s, n, cnt, a)
      ensures a == Panicked <==> AllSet(s[..n])
      ensures a == NotFound ==> forall j: nat :: !FreeRun(s[..n], j, cnt)
      ensures a.Found? ==> FreeRun(s, a.start, cnt) && a.start + cnt <= n + (if cnt == 1 then 0 else 1)
      ensures forall i: nat :: ScanSpec(s, n, cnt, Found(i)) ==> a == Found(i)
    {
      forall i: nat | ScanSpec(s, n, cnt, Found(i)) ensures a == Found(i) {
        ScanAnswer(s, n, cnt, a, Found(i));
      }
      match a {
        case Panicked =>
        case NotFound =>
          forall j: nat ensures !FreeRun(s[..n], j, cnt) {
            FreeRunInPrefix(s[..n + 1], n, j, cnt);
            assert s[..n + 1][..n] == s[..n];
          }
        case Found(bit) =>
          FreeRunInPrefix(s, n, bit, cnt);
          FreeRunInPrefix(s, n + 1, bit, cnt);
      }
    }

    lemma UserRoom(idx: nat)
      requires Shape() && start + 8 * vaddr.bytesLen * PG_SIZE <= 0xc0000000 && idx < 8 * vaddr.bytesLen
      ensures UserVaddr(start, idx) < 0xc0000000 - PG_SIZE
    {
    }

    /** The pages malloc_page(PF_USER) maps are those of the bits it sets exactly when the first page is in use and
        the run behind it is free: then the scan stops at bit 1. */
    lemma MallocMatchesIff(pte0: map<nat, nat>, pte: map<nat, nat>, bits0: seq<bool>, bits: seq<bool>, idx: nat,
                           cnt: nat)
      requires Shape() && |bits0| == |bits| == 8 * vaddr.bytesLen + 8 && Matches(pte0, bits0)
      requires cnt > 0 && ScanSpec(bits0, 8 * vaddr.bytesLen, cnt, Found(idx))
      requires PagesAdded(pte0, pte, Vpn(UserVaddr(start, idx)), cnt)
      requires forall k :: 0 <= k < |bits| ==> bits[k] == if idx <= k < idx + cnt then true else bits0[k]
      ensures Matches(pte, bits) <==> bits0[0] && FreeRun(bits0, 1, cnt)
    {
      hide Matches, PagesAdded, UserVaddr;
      ScanCases(bits0, 8 * vaddr.bytesLen, cnt, Found(idx));
      StopsAtOne(bits0, 8 * vaddr.bytesLen, cnt, idx);
      hide ScanSpec;
      MatchesAtOne(pte0, pte, bits0, bits, idx, cnt);
    }

    /** Where the scan stops, as the map was before. */
    lemma StopsAtOne(s: seq<bool>, n: nat, cnt: nat, idx: nat)
      requires 0 < n < |s| && cnt > 0 && ScanSpec(s, n, cnt, Found(idx))
      ensures idx == 1 <==> s[0] && FreeRun(s, 1, cnt)
    {
      ScanCases(s, n, cnt, Found(idx));
      var w := if cnt == 1 then s[..n] else s[..n + 1];
      assert FirstFit(w, cnt, idx);
      if idx == 1 {
        assert !FreeRun(w, 0, cnt);
      } else if idx > 1 {
        assert !FreeRun(w, 1, cnt);
      }
    }

    lemma MatchesAtOne(pte0: map<nat, nat>, pte: map<nat, nat>, bits0: seq<bool>, bits: seq<bool>, idx: nat, cnt: nat)
      requires Shape() && |bits0| == |bits| == 8 * vaddr.bytesLen + 8 && Matches(pte0, bits0)
      requires cnt > 0 && idx + cnt <= 8 * vaddr.bytesLen + 1 && idx < 8 * vaddr.bytesLen && FreeRun(bits0, idx, cnt)
      requires PagesAdded(pte0, pte, Vpn(UserVaddr(start, idx)), cnt)
      requires forall k :: 0 <= k < |bits| ==> bits[k] == if idx <= k < idx + cnt then true else bits0[k]
      ensures Matches(pte, bits) <==> idx == 1
    {
      var v := Vpn(UserVaddr(start, idx));
      assert v == Base() + 1 + idx / PG_SIZE by {
        assert start == Base() * PG_SIZE;
      }
      if idx == 0 {
        assert !bits0[idx] && bits[idx] && Base() + idx !in pte;
      } else if idx > 1 {
        assert v in pte && v < Base() + idx && !bits[v - Base()];
      }
    }

    // -------------------------------------------------------------- mfree_page

    /** mfree_page(PF_USER, va, cnt) for pages that are mapped: the loop for frames of the user pool. */
    method MfreePage(va: nat, cnt: nat) returns (ok: bool)
      requires Sound() && BitsMatch() && cnt >= 1 && va % PG_SIZE == 0
      requires forall u :: Vpn(va) <= u < Vpn(va) + cnt ==> u in dir.pte
      modifies dir`pte, kernelPool.bitmap.bits, userPool.bitmap.bits, vaddr.bits
      ensures ok && Sound() && BitsMatch() && Removed(old(dir.pte), dir.pte, Vpn(va), cnt)
      ensures userPool.Used() == old(userPool.Used()) - Behind(old(dir.pte), Vpn(va), cnt)
      ensures unchanged(kernelPool.bitmap.bits)
    {
      hide PageDir.Valid, FramesUsed, Behind, Pool.Used;
      var v := va / PG_SIZE;
      UserFrame(v);
      if dir.pte[v] % PG_SIZE != 0 || dir.pte[v] < 0x102000 || dir.pte[v] < userPool.start {
        return false;
      }
      assert v in dir.pte && v + cnt - 1 in dir.pte;
      ghost var pte0, used0 := dir.pte, userPool.Used();
      var done := 0;
      assert Behind(pte0, v, 0) == {} by {
        BehindNone(pte0, v);
      }
      while done < cnt
        invariant 0 <= done <= cnt
        invariant Sound() && Removed(pte0, dir.pte, v, done)
        invariant userPool.Used() == used0 - Behind(pte0, v, done)
        invariant unchanged(kernelPool.bitmap.bits) && unchanged(vaddr.bits)
      {
        ghost var pte := dir.pte;
        ok := UnmapPage(v + done);
        RemovedGrows(pte0, pte, v, done);
        BehindSplit(pte0, v, done);
        if !ok {
          assert false;
          return;
        }
        done := done + 1;
      }
      vaddr.SetRun((va - start) / PG_SIZE, cnt, false);
      ok := true;
    }

    method UnmapPage(v: nat) returns (ok: bool)
      requires Sound() && v in dir.pte
      modifies dir`pte, kernelPool.bitmap.bits, userPool.bitmap.bits
      ensures ok && Sound() && dir.pte == old(dir.pte) - {v}
      ensures userPool.Used() == old(userPool.Used()) - {old(dir.pte[v])}
      ensures unchanged(kernelPool.bitmap.bits)
    {
      var frame := dir.pte[v];
      if frame % PG_SIZE != 0 || frame < userPool.start {
        return false;
      }
      ghost var pte := dir.pte;
      userPool.Release(frame);
      dir.Remove(v);
      forall u | u in dir.pte ensures dir.pte[u] in userPool.Used() {
        assert pte[u] != pte[v];
      }
      ok := true;
    }

    lemma BehindNone(pte: map<nat, nat>, v: nat)
      ensures Behind(pte, v, 0) == {}
    {
    }

    lemma UserFrame(v: nat)
      requires Sound() && v in dir.pte
      ensures dir.pte[v] % PG_SIZE == 0 && dir.pte[v] >= userPool.start >= 0x102000
    {
    }
  }

  // ---------------------------------------------------------------- the loop of malloc_page, on values

  /** Pages v .. v + n - 1 are mapped on frames of the one pool, with new tables from the other. */
  ghost predicate Took(pte0: map<nat, nat>, pde0: map<nat, nat>, used0: set<nat>, kept0: set<nat>, pte: map<nat, nat>,
                       pde: map<nat, nat>, used: set<nat>, kept: set<nat>, v: nat, n: nat) {
    && PagesAdded(pte0, pte, v, n) && TablesAdded(pde0, pde)
    && used == used0 + Behind(pte, v, n) && used0 !! Behind(pte, v, n)
    && kept == kept0 + NewTables(pde0, pde) && kept0 !! NewTables(pde0, pde)
  }

  lemma TookNothing(pte: map<nat, nat>, pde: map<nat, nat>, used: set<nat>, kept: set<nat>, v: nat)
    ensures Took(pte, pde, used, kept, pte, pde, used, kept, v, 0)
  {
  }

  lemma TookMapped(pte0: map<nat, nat>, pde0: map<nat, nat>, used0: set<nat>, kept0: set<nat>, pte: map<nat, nat>,
                   pde: map<nat, nat>, used: set<nat>, kept: set<nat>, v: nat, n: nat)
    requires Took(pte0, pde0, used0, kept0, pte, pde, used, kept, v, n)
    ensures v + n in pte <==> v + n in pte0
  {
  }

  lemma TookMore(pte0: map<nat, nat>, pde0: map<nat, nat>, used0: set<nat>, kept0: set<nat>, pte: map<nat, nat>,
                 pde: map<nat, nat>, used: set<nat>, kept: set<nat>, v: nat, n: nat, pde': map<nat, nat>,
                 kept': set<nat>, f: nat)
    requires Took(pte0, pde0, used0, kept0, pte, pde, used, kept, v, n)
    requires v + n !in pte && f !in used
    requires TablesAdded(pde, pde') && NewTables(pde, pde') !! kept && kept' == kept + NewTables(pde, pde')
    ensures Took(pte0, pde0, used0, kept0, pte[v + n := f], pde', used + {f}, kept', v, n + 1)
  {
    BehindGrows(pte, v, n, f);
    NewTablesGrow(pde0, pde, pde');
  }

  lemma TookAll(pte0: map<nat, nat>, pde0: map<nat, nat>, used0: set<nat>, kept0: set<nat>, pte: map<nat, nat>,
                pde: map<nat, nat>, used: set<nat>, kept: set<nat>, v: nat, n: nat)
    requires Took(pte0, pde0, used0, kept0, pte, pde, used, kept, v, n)
    ensures PagesAdded(pte0, pte, v, n) && TablesAdded(pde0, pde)
    ensures forall u :: v <= u < v + n ==> u in pte && u !in pte0
    ensures used == used0 + Behind(pte, v, n) && used0 !! Behind(pte, v, n)
    ensures kept == kept0 + NewTables(pde0, pde) && kept0 !! NewTables(pde0, pde)
  {
  }
}
