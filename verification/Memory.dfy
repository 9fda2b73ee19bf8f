/** malloc_page and mfree_page of kernel/memory.c for the kernel's own pages. */
module KernelPages {
  import opened Bitmaps
  import opened Outcomes
  import opened Pages

  /** Frames and page tables that mapping pages v .. v + cnt - 1 takes, given the tables there are. */
  function Needed(tables: set<nat>, v: nat, cnt: nat): (n: nat)
    ensures n >= cnt
    decreases cnt
  {
    if cnt == 0 then 0
    else if v / 1024 in tables then 1 + Needed(tables, v + 1, cnt - 1)
    else 2 + Needed(tables + {v / 1024}, v + 1, cnt - 1)
  }

  /** The frames behind pages v .. v + cnt - 1. */
  ghost function Behind(pte: map<nat, nat>, v: nat, cnt: nat): set<nat>
    requires forall u :: v <= u < v + cnt ==> u in pte
  {
    set u | v <= u < v + cnt :: pte[u]
  }

  /** Tables that `pde` has and `pde0` lacks. */
  ghost function NewTables(pde0: map<nat, nat>, pde: map<nat, nat>): set<nat> {
    set d | d in pde && d !in pde0 :: pde[d]
  }

  /** Pages v .. v + cnt - 1 are new, the others are as before. */
  ghost predicate PagesAdded(pte0: map<nat, nat>, pte: map<nat, nat>, v: nat, cnt: nat) {
    && (forall u :: u in pte <==> u in pte0 || v <= u < v + cnt)
    && (forall u :: u in pte0 ==> u in pte && pte[u] == pte0[u])
    && (forall u :: v <= u < v + cnt ==> u !in pte0)
  }

  ghost predicate TablesAdded(pde0: map<nat, nat>, pde: map<nat, nat>) {
    forall d :: d in pde0 ==> d in pde && pde[d] == pde0[d]
  }

  /** Mapping pages v .. v + cnt - 1 takes exactly their frames and their new tables, none of them used before. */
  ghost predicate MapsRun(pte0: map<nat, nat>, pde0: map<nat, nat>, used0: set<nat>, pte: map<nat, nat>,
                          pde: map<nat, nat>, used: set<nat>, v: nat, cnt: nat) {
    && PagesAdded(pte0, pte, v, cnt)
    && TablesAdded(pde0, pde)
    && used == used0 + Behind(pte, v, cnt) + NewTables(pde0, pde)
    && used0 !! Behind(pte, v, cnt) && used0 !! NewTables(pde0, pde)
  }

  lemma BehindGrows(pte: map<nat, nat>, v: nat, cnt: nat, f: nat)
    requires forall u :: v <= u < v + cnt ==> u in pte
    ensures Behind(pte[v + cnt := f], v, cnt + 1) == Behind(pte, v, cnt) + {f}
  {
    var pte' := pte[v + cnt := f];
    assert pte'[v + cnt] == f;
    forall x | x in Behind(pte, v, cnt) ensures x in Behind(pte', v, cnt + 1) {
      var u :| v <= u < v + cnt && pte[u] == x;
      assert pte'[u] == x;
    }
    forall x | x in Behind(pte', v, cnt + 1) ensures x in Behind(pte, v, cnt) + {f} {
      var u :| v <= u < v + cnt + 1 && pte'[u] == x;
    }
  }

  lemma NewTablesGrow(pde0: map<nat, nat>, pde: map<nat, nat>, pde': map<nat, nat>)
    requires TablesAdded(pde0, pde) && TablesAdded(pde, pde')
    ensures NewTables(pde0, pde') == NewTables(pde0, pde) + NewTables(pde, pde')
  {
    forall d | d in pde && d !in pde0 ensures pde[d] in NewTables(pde0, pde') {
      assert pde'[d] == pde[d];
    }
  }

  lemma MapsNothing(pte: map<nat, nat>, pde: map<nat, nat>, used: set<nat>, v: nat)
    ensures MapsRun(pte, pde, used, pte, pde, used, v, 0)
  {
  }

  lemma NextUnmapped(pte0: map<nat, nat>, pde0: map<nat, nat>, used0: set<nat>, pte: map<nat, nat>, pde: map<nat, nat>,
                     used: set<nat>, v: nat, cnt: nat)
    requires MapsRun(pte0, pde0, used0, pte, pde, used, v, cnt) && v + cnt !in pte0
    ensures v + cnt !in pte
  {
  }

  lemma NeededNone(tables: set<nat>, v: nat)
    ensures Needed(tables, v, 0) == 0
  {
  }

  lemma NeededStep(tables: set<nat>, v: nat, cnt: nat)
    requires cnt > 0
    ensures Needed(tables, v, cnt) ==
      (if v / 1024 in tables then 1 else 2) + Needed(tables + {v / 1024}, v + 1, cnt - 1)
  {
    if v / 1024 in tables {
      assert tables + {v / 1024} == tables;
    }
  }

  lemma MapsRunGrows(pte0: map<nat, nat>, pde0: map<nat, nat>, used0: set<nat>, pte: map<nat, nat>, pde: map<nat, nat>,
                     used: set<nat>, v: nat, cnt: nat, pde': map<nat, nat>, used': set<nat>, f: nat)
    requires MapsRun(pte0, pde0, used0, pte, pde, used, v, cnt)
    requires v + cnt !in pte && f !in used
    requires TablesAdded(pde, pde') && NewTables(pde, pde') !! used
    requires used' == used + {f} + NewTables(pde, pde')
    ensures MapsRun(pte0, pde0, used0, pte[v + cnt := f], pde', used', v, cnt + 1)
  {
    BehindGrows(pte, v, cnt, f);
    NewTablesGrow(pde0, pde, pde');
  }

  class Memory {
    const kernelPool: Pool
    const userPool: Pool
    const kernelVaddr: Bitmap
    const vaddrStart: nat
    const dir: PageDir

    ghost function Base(): nat {
      Vpn(vaddrStart)
    }

    ghost predicate Shape() {
      && kernelPool.Valid() && userPool.Valid() && kernelVaddr.Valid()
      && 0x102000 <= kernelPool.start && kernelPool.Limit() <= userPool.start
      && vaddrStart % PG_SIZE == 0 && vaddrStart + (8 * kernelVaddr.bytesLen + 1) * PG_SIZE <= 0x1_0000_0000
      && kernelPool.bitmap.bits != userPool.bitmap.bits
      && kernelVaddr.bits != kernelPool.bitmap.bits && kernelVaddr.bits != userPool.bitmap.bits
    }

    /** Every mapped page has its frame and every page table its frame marked as used. */
    ghost predicate FramesUsed()
      reads dir, kernelPool.bitmap.bits
      requires Shape()
    {
      && (forall v :: v in dir.pte ==> dir.pte[v] in kernelPool.Used() && kernelPool.Owns(dir.pte[v]))
      && (forall d :: d in dir.pde && kernelPool.Owns(dir.pde[d]) ==> dir.pde[d] in kernelPool.Used())
    }

    /** A page of the heap is mapped exactly when its virtual bit is set; the page one past the
        heap, which bitmap_scan may hand out, has its bit set when it is mapped. */
    ghost predicate BitsMatch()
      reads dir, kernelVaddr.bits
      requires Shape()
    {
      && (forall i :: 0 <= i < 8 * kernelVaddr.bytesLen && kernelVaddr.Bits()[i] ==> Base() + i in dir.pte)
      && (forall v :: v in dir.pte ==>
            Base() <= v <= Base() + 8 * kernelVaddr.bytesLen && kernelVaddr.Bits()[v - Base()])
    }

    ghost predicate Valid()
      reads dir, kernelVaddr.bits, kernelPool.bitmap.bits
    {
      Shape() && dir.Valid() && FramesUsed() && BitsMatch()
    }

    constructor (kernelPool: Pool, userPool: Pool, kernelVaddr: Bitmap, vaddrStart: nat, dir: PageDir)
      requires kernelPool.Valid() && userPool.Valid() && kernelVaddr.Valid()
      requires 0x102000 <= kernelPool.start && kernelPool.Limit() <= userPool.start
      requires vaddrStart % PG_SIZE == 0 && vaddrStart + (8 * kernelVaddr.bytesLen + 1) * PG_SIZE <= 0x1_0000_0000
      requires kernelPool.bitmap.bits != userPool.bitmap.bits
      requires kernelVaddr.bits != kernelPool.bitmap.bits && kernelVaddr.bits != userPool.bitmap.bits
      requires dir.Valid() && dir.pte == map[] && Bitmap.AllFree(kernelVaddr.Map())
      requires forall d :: d in dir.pde ==> !kernelPool.Owns(dir.pde[d])
      ensures Valid() && this.kernelPool == kernelPool && this.userPool == userPool
      ensures this.kernelVaddr == kernelVaddr && this.vaddrStart == vaddrStart && this.dir == dir
    {
      this.kernelPool, this.userPool, this.kernelVaddr := kernelPool, userPool, kernelVaddr;
      this.vaddrStart, this.dir := vaddrStart, dir;
      new;
      assert forall i :: 0 <= i < 8 * kernelVaddr.bytesLen ==> kernelVaddr.Bits()[i] == kernelVaddr.Map()[i];
    }

    /** Different pages are on different frames; each frame is marked in the one pool whose range holds it,
        and each page in the virtual map. */
    lemma PageMapSound(v: nat, w: nat)
      requires Valid() && v in dir.pte && w in dir.pte
      ensures dir.pte[v] == dir.pte[w] <==> v == w
      ensures dir.pte[v] in kernelPool.Used() && kernelPool.Owns(dir.pte[v]) && !userPool.Owns(dir.pte[v])
      ensures Base() <= v && v - Base() < |kernelVaddr.Bits()| && kernelVaddr.Bits()[v - Base()]
    {
    }

    /** vaddr_get, kernel branch; the result is a page number. */
    method VaddrGet(cnt: nat) returns (r: Outcome<nat>)
      requires Shape() && cnt >= 1
      modifies kernelVaddr.bits
      ensures r == Halted <==> AllSet(old(kernelVaddr.Map()))
      ensures !r.Done? ==> unchanged(kernelVaddr.bits)
      ensures r == Null ==>
        && ScanSpec(old(kernelVaddr.Bits()), 8 * kernelVaddr.bytesLen, cnt, NotFound)
        && forall j: nat :: !FreeRun(old(kernelVaddr.Map()), j, cnt)
      ensures r.Done? ==>
        && Base() <= r.value && r.value - Base() + cnt <= 8 * kernelVaddr.bytesLen + (if cnt == 1 then 0 else 1)
        && ScanSpec(old(kernelVaddr.Bits()), 8 * kernelVaddr.bytesLen, cnt, Found(r.value - Base()))
        && FreeRun(old(kernelVaddr.Bits()), r.value - Base(), cnt)
        && forall k :: 0 <= k < |kernelVaddr.Bits()| ==>
             kernelVaddr.Bits()[k] ==
               if r.value - Base() <= k < r.value - Base() + cnt then true else old(kernelVaddr.Bits())[k]
    {
      ghost var s, n := kernelVaddr.Bits(), 8 * kernelVaddr.bytesLen;
      var scan := kernelVaddr.Scan(cnt);
      match scan {
        case Panicked => return Halted;
        case NotFound =>
          forall j: nat ensures !FreeRun(s[..n], j, cnt) {
            FreeRunInPrefix(s[..n + 1], n, j, cnt);
            assert s[..n + 1][..n] == s[..n];
          }
          return Null;
        case Found(start) =>
          FreeRunInPrefix(s, n, start, cnt);
          FreeRunInPrefix(s, n + 1, start, cnt);
          kernelVaddr.SetRun(start, cnt, true);
          r := Done(vaddrStart / PG_SIZE + start);
      }
    }

    /** One turn of the loop of malloc_page. */
    method MapPage(v: nat) returns (ok: bool)
      requires Shape() && dir.Valid() && FramesUsed() && v !in dir.pte
      modifies dir, kernelPool.bitmap.bits
      ensures var need := if v / 1024 in old(dir.pde) then 1 else 2;
        && (ok <==> old(kernelPool.Free()) >= need)
        && (ok ==> kernelPool.Free() == old(kernelPool.Free()) - need)
      ensures ok ==> dir.Valid() && FramesUsed()
      ensures ok ==>
        && v in dir.pte && dir.pte == old(dir.pte)[v := dir.pte[v]] && dir.pte[v] !in old(kernelPool.Used())
        && TablesAdded(old(dir.pde), dir.pde) && dir.pde.Keys == old(dir.pde).Keys + {v / 1024}
        && NewTables(old(dir.pde), dir.pde) !! old(kernelPool.Used())
        && kernelPool.Used() == old(kernelPool.Used()) + {dir.pte[v]} + NewTables(old(dir.pde), dir.pde)
    {
      ghost var pde0 := dir.pde;
      var frame := kernelPool.Palloc();
      if frame == Halted {
        return false;
      }
      label got:
      ok := dir.Add(kernelPool, v, frame.value);
      if ok {
        if v / 1024 in pde0 {
          assert NewTables(pde0, dir.pde) == {};
        } else {
          assert NewTables(pde0, dir.pde) == {dir.pde[v / 1024]};
        }
      }
    }

    /** The loop of malloc_page. It is undone by nobody, but it can only stop short by halting. */
    method MapPages(v: nat, cnt: nat) returns (ok: bool)
      requires Shape() && dir.Valid() && FramesUsed()
      requires forall u :: v <= u < v + cnt ==> u !in dir.pte
      modifies dir, kernelPool.bitmap.bits
      ensures ok <==> old(kernelPool.Free()) >= Needed(old(dir.pde).Keys, v, cnt)
      ensures ok ==> dir.Valid() && FramesUsed()
      ensures ok ==> MapsRun(old(dir.pte), old(dir.pde), old(kernelPool.Used()),
                             dir.pte, dir.pde, kernelPool.Used(), v, cnt)
    {
      hide PageDir.Valid, FramesUsed, MapsRun, NewTables, TablesAdded, Needed;
      hide Pool.Used, Pool.Free, Pool.Owns, Pool.Limit;
      ghost var pte0, pde0, used0, free0 := dir.pte, dir.pde, kernelPool.Used(), kernelPool.Free();
      ghost var total := Needed(pde0.Keys, v, cnt);
      ghost var left := total;
      var done := 0;
      MapsNothing(pte0, pde0, used0, v);
      while done < cnt
        invariant 0 <= done <= cnt
        invariant dir.Valid() && FramesUsed()
        invariant MapsRun(pte0, pde0, used0, dir.pte, dir.pde, kernelPool.Used(), v, done)
        invariant left == Needed(dir.pde.Keys, v + done, cnt - done)
        invariant free0 + left == kernelPool.Free() + total
      {
        ghost var pte, pde, used, here := dir.pte, dir.pde, kernelPool.Used(), v + done;
        ghost var tables := pde.Keys + {here / 1024};
        NeededStep(pde.Keys, here, cnt - done);
        NextUnmapped(pte0, pde0, used0, pte, pde, used, v, done);
        ok := MapPage(v + done);
        if !ok {
          return false;
        }
        assert dir.pde.Keys == tables && here in dir.pte;
        MapsRunGrows(pte0, pde0, used0, pte, pde, used, v, done, dir.pde, kernelPool.Used(), dir.pte[here]);
        left := Needed(tables, here + 1, cnt - done - 1);
        done := done + 1;
      }
      NeededNone(dir.pde.Keys, v + cnt);
      ok := true;
    }

    ghost predicate RunSet(bits0: seq<bool>, bits: seq<bool>, start: nat, cnt: nat, value: bool) {
      |bits| == |bits0| && forall k :: 0 <= k < |bits| ==>
        bits[k] == if start <= k < start + cnt then value else bits0[k]
    }

    /** A request for `cnt` pages trips an assertion: a bad count, a full map, or too few frames for the run found. */
    ghost predicate PagesHalt(cnt: nat)
      requires Shape()
      reads dir, kernelPool.bitmap.bits, kernelVaddr.bits
    {
      || !(0 < cnt < 3840) || AllSet(kernelVaddr.Map())
      || exists s: nat ::
           && ScanSpec(kernelVaddr.Bits(), 8 * kernelVaddr.bytesLen, cnt, Found(s))
           && kernelPool.Free() < Needed(dir.pde.Keys, Base() + s, cnt)
    }

    /** A request for `cnt` pages finds no run of virtual pages. */
    ghost predicate NoRun(cnt: nat)
      requires Shape()
      reads kernelVaddr.bits
    {
      0 < cnt < 3840 && ScanSpec(kernelVaddr.Bits(), 8 * kernelVaddr.bytesLen, cnt, NotFound)
    }

    /** malloc_page(PF_KERNEL, cnt). Out of frames means halted, not NULL; NULL means that no run of
        virtual pages was found, and then nothing has changed. */
    method MallocPage(cnt: nat) returns (r: Outcome<nat>)
      requires Valid()
      modifies dir, kernelPool.bitmap.bits, kernelVaddr.bits
      ensures r == Halted <==> old(PagesHalt(cnt))
      ensures r == Null <==> old(NoRun(cnt))
      ensures r != Halted ==> 0 < cnt < 3840 && Valid()
      ensures r == Null ==>
        && (forall j: nat :: !FreeRun(old(kernelVaddr.Map()), j, cnt))
        && unchanged(dir) && unchanged(kernelPool.bitmap.bits) && unchanged(kernelVaddr.bits)
      ensures r.Done? ==> r.value % PG_SIZE == 0 && Base() <= Vpn(r.value)
      ensures r.Done? ==>
        var v := Vpn(r.value);
        && ScanSpec(old(kernelVaddr.Bits()), 8 * kernelVaddr.bytesLen, cnt, Found(v - Base()))
        && old(kernelPool.Free()) >= Needed(old(dir.pde).Keys, v, cnt)
        && MapsRun(old(dir.pte), old(dir.pde), old(kernelPool.Used()), dir.pte, dir.pde, kernelPool.Used(), v, cnt)
        && RunSet(old(kernelVaddr.Bits()), kernelVaddr.Bits(), v - Base(), cnt, true)
        && v - Base() + cnt <= 8 * kernelVaddr.bytesLen + 1
    {
      hide PageDir.Valid, FramesUsed, NewTables, TablesAdded, PagesAdded, Needed, Behind, ScanSpec, FreeRun;
      hide Pool.Used, Pool.Free, Pool.Owns, Pool.Limit;
      if !(0 < cnt < 3840) {
        return Halted;
      }
      ghost var bits, n := kernelVaddr.Bits(), 8 * kernelVaddr.bytesLen;
      var v := VaddrGet(cnt);
      if v == Halted {
        FullAnswer(bits, n, cnt);
        return Halted;
      }
      if v == Null {
        OnlyAnswer(bits, n, cnt, NotFound);
        return Null;
      }
      OnlyAnswer(bits, n, cnt, Found(v.value - Base()));
      RunUnmapped(dir.pte, old(kernelVaddr.Bits()), v.value, cnt);
      var ok := MapPages(v.value, cnt);
      if !ok {
        return Halted;
      }
      MallocBits(old(dir.pte), dir.pte, old(kernelVaddr.Bits()), kernelVaddr.Bits(), v.value, cnt);
      r := Done(v.value * PG_SIZE);
    }

    lemma OnlyAnswer(s: seq<bool>, n: nat, cnt: nat, a: ScanResult)
      requires n < |s| && ScanSpec(s, n, cnt, a)
      ensures forall b: nat :: ScanSpec(s, n, cnt, Found(b)) ==> a == Found(b)
      ensures ScanSpec(s, n, cnt, NotFound) ==> a == NotFound
    {
      hide ScanSpec;
      if ScanSpec(s, n, cnt, NotFound) {
        ScanAnswer(s, n, cnt, a, NotFound);
      }
      forall b: nat | ScanSpec(s, n, cnt, Found(b)) ensures a == Found(b) {
        ScanAnswer(s, n, cnt, a, Found(b));
      }
    }

    lemma FullAnswer(s: seq<bool>, n: nat, cnt: nat)
      requires n < |s| && AllSet(s[..n])
      ensures !ScanSpec(s, n, cnt, NotFound)
    {
    }

    lemma RunUnmapped(pte: map<nat, nat>, bits: seq<bool>, v: nat, cnt: nat)
      requires Shape() && |bits| == 8 * kernelVaddr.bytesLen + 8 && Base() <= v
      requires forall u :: u in pte ==> Base() <= u <= Base() + 8 * kernelVaddr.bytesLen && bits[u - Base()]
      requires FreeRun(bits, v - Base(), cnt)
      ensures forall u :: v <= u < v + cnt ==> u !in pte
    {
      forall u | v <= u < v + cnt ensures u !in pte {
        assert !bits[u - Base()];
      }
    }

    lemma MallocBits(pte0: map<nat, nat>, pte: map<nat, nat>, bits0: seq<bool>, bits: seq<bool>, v: nat, cnt: nat)
      requires Shape() && |bits0| == |bits| == 8 * kernelVaddr.bytesLen + 8
      requires Base() <= v && v - Base() + cnt <= 8 * kernelVaddr.bytesLen + 1
      requires PagesAdded(pte0, pte, v, cnt) && RunSet(bits0, bits, v - Base(), cnt, true)
      requires forall i :: 0 <= i < 8 * kernelVaddr.bytesLen && bits0[i] ==> Base() + i in pte0
      requires forall u :: u in pte0 ==> Base() <= u <= Base() + 8 * kernelVaddr.bytesLen && bits0[u - Base()]
      ensures forall i :: 0 <= i < 8 * kernelVaddr.bytesLen && bits[i] ==> Base() + i in pte
      ensures forall u :: u in pte ==> Base() <= u <= Base() + 8 * kernelVaddr.bytesLen && bits[u - Base()]
    {
    }

    /** pfree: the pool is chosen by the address alone. */
    method Pfree(f: nat)
      requires Shape() && (kernelPool.Owns(f) || userPool.Owns(f))
      modifies kernelPool.bitmap.bits, userPool.bitmap.bits
      ensures kernelPool.Used() == old(kernelPool.Used()) - {f}
      ensures userPool.Used() == old(userPool.Used()) - {f}
      ensures kernelPool.Owns(f) ==> unchanged(userPool.bitmap.bits)
    {
      UsedOwned(kernelPool);
      UsedOwned(userPool);
      if f >= userPool.start {
        userPool.Release(f);
      } else {
        kernelPool.Release(f);
      }
    }

    lemma UsedOwned(pool: Pool)
      requires pool.Valid()
      ensures forall f :: f in pool.Used() ==> pool.Owns(f)
    {
      forall f | f in pool.Used() ensures pool.Owns(f) {
        assert (f - pool.start) % PG_SIZE == 0;
      }
    }

    /** The loop of mfree_page: frames go back to their pool, entries lose their present bit. */
    method UnmapPages(v: nat, cnt: nat) returns (ok: bool)
      requires Shape() && dir.Valid() && FramesUsed()
      requires forall u :: v <= u < v + cnt ==> u in dir.pte
      modifies dir`pte, kernelPool.bitmap.bits, userPool.bitmap.bits
      ensures ok && dir.Valid() && FramesUsed()
      ensures forall u :: u in dir.pte <==> u in old(dir.pte) && !(v <= u < v + cnt)
      ensures forall u :: u in dir.pte ==> dir.pte[u] == old(dir.pte[u])
      ensures kernelPool.Used() == old(kernelPool.Used()) - Behind(old(dir.pte), v, cnt)
      ensures unchanged(userPool.bitmap.bits)
    {
      ghost var pte0, used0 := dir.pte, kernelPool.Used();
      var done := 0;
      while done < cnt
        invariant 0 <= done <= cnt
        invariant dir.Valid() && FramesUsed()
        invariant Removed(pte0, dir.pte, v, done)
        invariant kernelPool.Used() == used0 - Behind(pte0, v, done)
        invariant unchanged(userPool.bitmap.bits)
      {
        ghost var pte, used := dir.pte, kernelPool.Used();
        ok := UnmapPage(v + done);
        RemovedGrows(pte0, pte, v, done);
        BehindSplit(pte0, v, done);
        assert pte[v + done] == pte0[v + done];
        if !ok {
          assert false;
          return;
        }
        done := done + 1;
      }
      ok := true;
    }

    /** One turn of it, with the source's assertions about the frame. */
    method UnmapPage(v: nat) returns (ok: bool)
      requires Shape() && dir.Valid() && FramesUsed() && v in dir.pte
      modifies dir`pte, kernelPool.bitmap.bits, userPool.bitmap.bits
      ensures ok && dir.Valid() && FramesUsed()
      ensures dir.pte == old(dir.pte) - {v}
      ensures kernelPool.Used() == old(kernelPool.Used()) - {old(dir.pte[v])}
      ensures unchanged(userPool.bitmap.bits)
    {
      var frame := dir.pte[v];
      if frame % PG_SIZE != 0 || frame < kernelPool.start || frame >= userPool.start {
        return false;
      }
      ghost var pte := dir.pte;
      Pfree(frame);
      dir.Remove(v);
      forall u | u in dir.pte ensures dir.pte[u] in kernelPool.Used() {
        assert pte[u] != pte[v];
      }
      ok := true;
    }

    /** mfree_page(PF_KERNEL, va, cnt) for pages that are mapped. No assertion of it fails. */
    method MfreePage(va: nat, cnt: nat) returns (ok: bool)
      requires Valid() && cnt >= 1 && va % PG_SIZE == 0
      requires forall u :: Vpn(va) <= u < Vpn(va) + cnt ==> u in dir.pte
      modifies dir`pte, kernelPool.bitmap.bits, userPool.bitmap.bits, kernelVaddr.bits
      ensures ok && Valid()
      ensures forall u :: u in dir.pte <==> u in old(dir.pte) && !(Vpn(va) <= u < Vpn(va) + cnt)
      ensures forall u :: u in dir.pte ==> dir.pte[u] == old(dir.pte[u])
      ensures kernelPool.Used() == old(kernelPool.Used()) - Behind(old(dir.pte), Vpn(va), cnt)
      ensures unchanged(userPool.bitmap.bits)
      ensures Base() <= Vpn(va) && RunSet(old(kernelVaddr.Bits()), kernelVaddr.Bits(), Vpn(va) - Base(), cnt, false)
    {
      hide PageDir.Valid, FramesUsed, Behind, Pool.Used;
      var v := va / PG_SIZE;
      FirstFrame(v);
      if dir.pte[v] % PG_SIZE != 0 || dir.pte[v] < 0x102000 {
        return false;
      }
      assert v in dir.pte && v + cnt - 1 in dir.pte;
      ok := UnmapPages(v, cnt);
      kernelVaddr.SetRun((va - vaddrStart) / PG_SIZE, cnt, false);
      FreeBits(old(dir.pte), dir.pte, old(kernelVaddr.Bits()), kernelVaddr.Bits(), v, cnt);
    }

    lemma FirstFrame(v: nat)
      requires Shape() && FramesUsed() && v in dir.pte
      ensures dir.pte[v] % PG_SIZE == 0 && dir.pte[v] >= 0x102000
    {
    }

    lemma FreeBits(pte0: map<nat, nat>, pte: map<nat, nat>, bits0: seq<bool>, bits: seq<bool>, v: nat, cnt: nat)
      requires Shape() && |bits0| == |bits| == 8 * kernelVaddr.bytesLen + 8
      requires Base() <= v && RunSet(bits0, bits, v - Base(), cnt, false)
      requires forall u :: u in pte <==> u in pte0 && !(v <= u < v + cnt)
      requires forall i :: 0 <= i < 8 * kernelVaddr.bytesLen && bits0[i] ==> Base() + i in pte0
      requires forall u :: u in pte0 ==> Base() <= u <= Base() + 8 * kernelVaddr.bytesLen && bits0[u - Base()]
      ensures forall i :: 0 <= i < 8 * kernelVaddr.bytesLen && bits[i] ==> Base() + i in pte
      ensures forall u :: u in pte ==> Base() <= u <= Base() + 8 * kernelVaddr.bytesLen && bits[u - Base()]
    {
    }

    /** mfree_page undoes a successful malloc_page: the same pages are mapped to the same frames and
        the virtual map is as before; only frames that became page tables stay taken. */
    method MallocThenFree(cnt: nat) returns (r: Outcome<nat>)
      requires Valid()
      modifies dir, kernelPool.bitmap.bits, userPool.bitmap.bits, kernelVaddr.bits
      ensures r.Done? ==>
        && Valid()
        && dir.pte == old(dir.pte)
        && kernelVaddr.Bits() == old(kernelVaddr.Bits())
        && TablesAdded(old(dir.pde), dir.pde)
        && kernelPool.Used() == old(kernelPool.Used()) + NewTables(old(dir.pde), dir.pde)
    {
      hide PageDir.Valid, FramesUsed, BitsMatch, NewTables, Behind, Needed, ScanSpec, Pool.Used, Pool.Free;
      r := MallocPage(cnt);
      if r.Done? {
        ghost var v, pte1, used1, bits1 := Vpn(r.value), dir.pte, kernelPool.Used(), kernelVaddr.Bits();
        TablesApart();
        ScanFoundFree(old(kernelVaddr.Bits()), 8 * kernelVaddr.bytesLen, cnt, v - Base());
        var ok := MfreePage(r.value, cnt);
        SameEntries(old(dir.pte), pte1, dir.pte, v, cnt);
        TablesNotBehind(pte1, old(dir.pde), dir.pde, v, cnt);
        RunCleared(old(kernelVaddr.Bits()), bits1, kernelVaddr.Bits(), v - Base(), cnt);
      }
    }

    lemma TablesApart()
      requires dir.Valid()
      ensures forall u, d :: u in dir.pte && d in dir.pde ==> dir.pte[u] != dir.pde[d]
    {
    }

    lemma SameEntries(pte0: map<nat, nat>, pte1: map<nat, nat>, pte: map<nat, nat>, v: nat, cnt: nat)
      requires PagesAdded(pte0, pte1, v, cnt)
      requires forall u :: u in pte <==> u in pte1 && !(v <= u < v + cnt)
      requires forall u :: u in pte ==> pte[u] == pte1[u]
      ensures pte == pte0
    {
    }

    lemma TablesNotBehind(pte: map<nat, nat>, pde0: map<nat, nat>, pde: map<nat, nat>, v: nat, cnt: nat)
      requires forall u :: v <= u < v + cnt ==> u in pte
      requires forall u, d :: u in pte && d in pde ==> pte[u] != pde[d]
      ensures NewTables(pde0, pde) !! Behind(pte, v, cnt)
    {
    }

    lemma RunCleared(bits0: seq<bool>, bits1: seq<bool>, bits: seq<bool>, start: nat, cnt: nat)
      requires FreeRun(bits0, start, cnt)
      requires RunSet(bits0, bits1, start, cnt, true) && RunSet(bits1, bits, start, cnt, false)
      ensures bits == bits0
    {
    }
  }

  ghost predicate Removed(pte0: map<nat, nat>, pte: map<nat, nat>, v: nat, cnt: nat) {
    && (forall u :: u in pte <==> u in pte0 && !(v <= u < v + cnt))
    && (forall u :: u in pte ==> pte[u] == pte0[u])
  }

  lemma RemovedGrows(pte0: map<nat, nat>, pte: map<nat, nat>, v: nat, cnt: nat)
    requires Removed(pte0, pte, v, cnt)
    ensures Removed(pte0, pte - {v + cnt}, v, cnt + 1)
  {
  }

  lemma BehindSplit(pte: map<nat, nat>, v: nat, cnt: nat)
    requires forall u :: v <= u < v + cnt + 1 ==> u in pte
    ensures Behind(pte, v, cnt + 1) == Behind(pte, v, cnt) + {pte[v + cnt]}
  {
    BehindGrows(pte, v, cnt, pte[v + cnt]);
    assert pte[v + cnt := pte[v + cnt]] == pte;
  }
}
