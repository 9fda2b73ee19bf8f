/** The bit map of lib/kernel/bitmap.c, over the bytes it really touches: the map itself
    and the one byte of memory that follows it. */
module Bitmaps {

  // ---------------------------------------------------------------- bits of a byte

  /** `BITMAP_MASK << i` for a bit number inside a byte. */
  function Mask(i: nat): bv8
    requires i < 8
  {
    match i
    case 0 => 0x01 case 1 => 0x02 case 2 => 0x04 case 3 => 0x08
    case 4 => 0x10 case 5 => 0x20 case 6 => 0x40 case _ => 0x80
  }

  predicate BitOf(b: bv8, i: nat)
    requires i < 8
  {
    b & Mask(i) != 0
  }

  /** Binary digit number i of n, the last one being number 0. */
  function Digit(n: nat, i: nat): nat {
    if i == 0 then n % 2 else Digit(n / 2, i - 1)
  }

  /** The bits of a byte are the binary digits of the number it stands for. */
  lemma {:induction false} BitIsDigit(b: bv8, i: nat)
    requires i < 8
    ensures BitOf(b, i) <==> Digit(b as int, i) == 1
  {
    if i == 0 {
      LastDigit(b);
    } else {
      BitIsDigit(b >> 1, i - 1);
      Halved(b, i);
      hide BitOf;
    }
  }

  lemma LastDigit(b: bv8)
    ensures BitOf(b, 0) <==> b as int % 2 == 1
  {
  }

  lemma Halved(b: bv8, i: nat)
    requires 0 < i < 8
    ensures (b >> 1) as int == b as int / 2
    ensures BitOf(b >> 1, i - 1) <==> BitOf(b, i)
  {
  }

  lemma MaskedBits(b: bv8, i: nat, j: nat)
    requires i < 8 && j < 8
    ensures BitOf(b | Mask(i), j) <==> i == j || BitOf(b, j)
    ensures BitOf(b & !Mask(i), j) <==> i != j && BitOf(b, j)
  {
  }

  lemma FullByte(b: bv8)
    ensures b == 0xff <==> forall i :: 0 <= i < 8 ==> BitOf(b, i)
  {
    if forall i :: 0 <= i < 8 ==> BitOf(b, i) {
      assert BitOf(b, 0) && BitOf(b, 1) && BitOf(b, 2) && BitOf(b, 3);
      assert BitOf(b, 4) && BitOf(b, 5) && BitOf(b, 6) && BitOf(b, 7);
    }
  }

  /** The first `n` bits of a run of bytes, least significant bit of each byte first. */
  ghost function BitPrefix(s: seq<bv8>, n: nat): (r: seq<bool>)
    requires n <= 8 * |s|
    ensures |r| == n
  {
    if n == 0 then [] else BitPrefix(s, n - 1) + [BitOf(s[(n - 1) / 8], (n - 1) % 8)]
  }

  ghost function BitsOf(s: seq<bv8>): (r: seq<bool>)
    ensures |r| == 8 * |s|
  {
    BitPrefix(s, 8 * |s|)
  }

  lemma {:induction false} BitPrefixAt(s: seq<bv8>, n: nat, i: nat)
    requires i < n <= 8 * |s|
    ensures BitPrefix(s, n)[i] == BitOf(s[i / 8], i % 8)
  {
    if i == n - 1 {
    } else {
      BitPrefixAt(s, n - 1, i);
    }
  }

  lemma BitsAt(s: seq<bv8>)
    ensures forall i :: 0 <= i < 8 * |s| ==> BitsOf(s)[i] == BitOf(s[i / 8], i % 8)
  {
    forall i | 0 <= i < 8 * |s| ensures BitsOf(s)[i] == BitOf(s[i / 8], i % 8) {
      BitPrefixAt(s, 8 * |s|, i);
    }
  }

  lemma ByteUpdate(s: seq<bv8>, t: seq<bv8>, bitIdx: nat, value: bool)
    requires bitIdx < 8 * |s|
    requires var b, i := s[bitIdx / 8], bitIdx % 8;
      t == s[bitIdx / 8 := if value then b | Mask(i) else b & !Mask(i)]
    ensures BitsOf(t) == BitsOf(s)[bitIdx := value]
  {
    forall k | 0 <= k < 8 * |s|
      ensures BitsOf(t)[k] == BitsOf(s)[bitIdx := value][k]
    {
      BitPrefixAt(s, 8 * |s|, k);
      BitPrefixAt(t, 8 * |t|, k);
      if k / 8 == bitIdx / 8 {
        MaskedBits(s[k / 8], bitIdx % 8, k % 8);
      }
    }
  }

  // ---------------------------------------------------------------- what a scan should do

  datatype ScanResult = Found(start: nat) | NotFound | Panicked

  ghost predicate FreeRun(s: seq<bool>, start: nat, cnt: nat) {
    start + cnt <= |s| && forall k :: start <= k < start + cnt ==> !s[k]
  }

  ghost predicate FirstFit(s: seq<bool>, cnt: nat, start: nat) {
    FreeRun(s, start, cnt) && forall j: nat :: j < start ==> !FreeRun(s, j, cnt)
  }

  ghost predicate AllSet(s: seq<bool>) {
    forall k :: 0 <= k < |s| ==> s[k]
  }

  /** What the caller means by a scan: naive first fit, "not found" exactly when there is no run. */
  ghost predicate Intended(map_: seq<bool>, cnt: nat, r: ScanResult) {
    match r
    case Found(start) => FirstFit(map_, cnt, start)
    case NotFound => forall j: nat :: !FreeRun(map_, j, cnt)
    case Panicked => false
  }

  /** What the code does: a full map trips the assertion, a single bit is found inside the map,
      and a longer run is searched for in a window that reaches one bit past the map's end. */
  ghost predicate ScanSpec(s: seq<bool>, n: nat, cnt: nat, r: ScanResult)
    requires n < |s|
  {
    if AllSet(s[..n]) then r == Panicked
    else Intended(if cnt == 1 then s[..n] else s[..n + 1], cnt, r)
  }

  /** There is one right answer to a scan. */
  lemma ScanAnswer(s: seq<bool>, n: nat, cnt: nat, a: ScanResult, b: ScanResult)
    requires n < |s| && ScanSpec(s, n, cnt, a) && ScanSpec(s, n, cnt, b)
    ensures a == b
  {
  }

  /** The condition under which the one bit past the end decides a scan. */
  ghost predicate Overruns(s: seq<bool>, n: nat, cnt: nat)
    requires n < |s|
  {
    && 2 <= cnt <= n + 1
    && !s[n]
    && FreeRun(s[..n], n + 1 - cnt, cnt - 1)
    && forall j: nat :: !FreeRun(s[..n], j, cnt)
  }

  lemma FreeRunInPrefix(s: seq<bool>, n: nat, j: nat, cnt: nat)
    requires n <= |s|
    ensures FreeRun(s[..n], j, cnt) <==> j + cnt <= n && FreeRun(s, j, cnt)
  {
    if j + cnt <= n {
      assert forall k :: j <= k < j + cnt ==> s[..n][k] == s[k];
    }
  }

  lemma ScanFoundFree(s: seq<bool>, n: nat, cnt: nat, start: nat)
    requires n < |s| && ScanSpec(s, n, cnt, Found(start))
    ensures FreeRun(s, start, cnt)
  {
    FreeRunInPrefix(s, n, start, cnt);
    FreeRunInPrefix(s, n + 1, start, cnt);
  }

  /** A scan meets its intent exactly when some bit of the map is free and the bit past the end
      does not complete a run that the map alone lacks. */
  lemma ScanMeetsIntentIff(s: seq<bool>, n: nat, cnt: nat, r: ScanResult)
    requires n < |s| && cnt >= 1
    requires ScanSpec(s, n, cnt, r)
    ensures Intended(s[..n], cnt, r) <==> !AllSet(s[..n]) && !Overruns(s, n, cnt)
  {
    if AllSet(s[..n]) || cnt == 1 { return; }
    var m, w := s[..n], s[..n + 1];
    assert m == w[..n];
    forall j: nat ensures FreeRun(w, j, cnt) <==>
        FreeRun(m, j, cnt) || (j + cnt == n + 1 && !s[n] && FreeRun(m, j, cnt - 1)) {
      FreeRunInPrefix(w, n, j, cnt);
      if j + cnt == n + 1 {
        FreeRunInPrefix(w, n, j, cnt - 1);
      }
    }
    if Overruns(s, n, cnt) {
      assert FreeRun(w, n + 1 - cnt, cnt);
    }
  }

  /** The smallest witness of the overrun: a free byte-long map and a request for nine bits. */
  lemma OverrunWitness()
    ensures Overruns(BitsOf([0, 0]), 8, 9)
    ensures ScanSpec(BitsOf([0, 0]), 8, 9, Found(0)) && !Intended(BitsOf([0, 0])[..8], 9, Found(0))
  {
    var s := BitsOf([0, 0]);
    BitsAt([0, 0]);
    assert forall k :: 0 <= k < 16 ==> !s[k];
    assert !s[..8][0];
    assert s[..9] == s[..8] + [s[8]];
  }

  lemma FullPrefix(s: seq<bv8>, n: nat)
    requires n <= |s| && forall k :: 0 <= k < n ==> s[k] == 0xff
    ensures forall k :: 0 <= k < 8 * n ==> BitsOf(s)[k]
  {
    forall k | 0 <= k < 8 * n ensures BitsOf(s)[k] {
      BitPrefixAt(s, 8 * |s|, k);
      FullByte(s[k / 8]);
    }
  }

  lemma FirstFreeBit(s: seq<bv8>, idxByte: nat, idxBit: nat)
    requires idxByte < |s| && idxBit < 8
    requires forall k :: 0 <= k < 8 * idxByte ==> BitsOf(s)[k]
    requires !BitOf(s[idxByte], idxBit) && forall i :: 0 <= i < idxBit ==> BitOf(s[idxByte], i)
    ensures var start := 8 * idxByte + idxBit;
      !BitsOf(s)[start] && forall k :: 0 <= k < start ==> BitsOf(s)[k]
  {
    var start := 8 * idxByte + idxBit;
    BitPrefixAt(s, 8 * |s|, start);
    forall k | 8 * idxByte <= k < start ensures BitsOf(s)[k] {
      BitPrefixAt(s, 8 * |s|, k);
      assert BitOf(s[idxByte], k - 8 * idxByte);
    }
  }

  lemma FirstFitOne(s: seq<bool>, start: nat)
    requires start < |s| && !s[start] && forall k :: 0 <= k < start ==> s[k]
    ensures FirstFit(s, 1, start)
  {
    forall j: nat | j < start ensures !FreeRun(s, j, 1) {
      assert s[j];
    }
  }

  // ---------------------------------------------------------------- the counting loop

  /** `count` free bits end just before `nextBit`, and no long enough run has been passed. */
  ghost predicate Counting(w: seq<bool>, cnt: nat, nextBit: nat, count: nat) {
    && count < cnt && count <= nextBit <= |w|
    && FreeRun(w, nextBit - count, count)
    && (count < nextBit ==> w[nextBit - count - 1])
    && NoRunBefore(w, cnt, nextBit)
  }

  ghost predicate NoRunBefore(w: seq<bool>, cnt: nat, bound: nat) {
    forall j: nat :: j + cnt <= bound ==> !FreeRun(w, j, cnt)
  }

  lemma CountingStarts(w: seq<bool>, cnt: nat, start: nat)
    requires cnt >= 2 && start < |w| && !w[start] && forall k :: 0 <= k < start ==> w[k]
    ensures Counting(w, cnt, start + 1, 1)
  {
    forall j: nat | j + cnt <= start + 1 ensures !FreeRun(w, j, cnt) {
      assert w[j];
    }
  }

  lemma CountingStep(w: seq<bool>, cnt: nat, nextBit: nat, count: nat)
    requires Counting(w, cnt, nextBit, count) && nextBit < |w|
    ensures w[nextBit] ==> Counting(w, cnt, nextBit + 1, 0)
    ensures !w[nextBit] && count + 1 < cnt ==> Counting(w, cnt, nextBit + 1, count + 1)
    ensures !w[nextBit] && count + 1 == cnt ==> FirstFit(w, cnt, nextBit + 1 - cnt)
  {
    var j := nextBit + 1 - cnt;
    if j >= 0 {
      if w[nextBit] {
        assert !FreeRun(w, j, cnt);
      } else if count + 1 < cnt {
        assert w[nextBit - count - 1] && !FreeRun(w, j, cnt);
      }
    }
  }

  // ---------------------------------------------------------------- counting free bits

  ghost function FreeCount(s: seq<bool>): nat {
    if s == [] then 0 else FreeCount(s[1..]) + (if s[0] then 0 else 1)
  }

  lemma {:induction false} FreeCountUpdate(s: seq<bool>, i: nat, v: bool)
    requires i < |s|
    ensures FreeCount(s[i := v]) == FreeCount(s) + (if s[i] then 1 else 0) - (if v then 1 else 0)
  {
    var u := s[i := v];
    if i == 0 {
      assert u[1..] == s[1..];
    } else {
      assert u[1..] == s[1..][i - 1 := v];
      FreeCountUpdate(s[1..], i - 1, v);
    }
  }

  lemma {:induction false} FreeCountZero(s: seq<bool>)
    ensures FreeCount(s) == 0 <==> AllSet(s)
  {
    if s == [] {
    } else {
      FreeCountZero(s[1..]);
      assert s == [s[0]] + s[1..];
      if AllSet(s[1..]) && s[0] {
        assert forall k :: 0 < k < |s| ==> s[k] == s[1..][k - 1];
      }
      if AllSet(s) {
        assert forall k :: 0 <= k < |s| - 1 ==> s[1..][k] == s[k + 1];
      }
    }
  }

  // ---------------------------------------------------------------- the structure itself

  class Bitmap {
    const bytesLen: nat     // btmp_bytes_len
    const bits: array<bv8>  // the map and the byte of memory that follows it

    ghost predicate Valid() {
      bits.Length == bytesLen + 1
    }

    constructor (bytesLen: nat, bits: array<bv8>)
      requires bits.Length == bytesLen + 1
      ensures Valid() && this.bytesLen == bytesLen && this.bits == bits
    {
      this.bytesLen, this.bits := bytesLen, bits;
    }

    /** Every bit the code can reach, the eight past the end included. */
    ghost function Bits(): (s: seq<bool>)
      reads bits
      requires Valid()
      ensures |s| == 8 * bytesLen + 8
    {
      BitsOf(bits[..])
    }

    /** The map proper. */
    ghost function Map(): (s: seq<bool>)
      reads bits
      requires Valid()
      ensures |s| == 8 * bytesLen
    {
      Bits()[..8 * bytesLen]
    }

    /** bitmap_init: clears the map and leaves the byte after it alone. */
    method Init()
      requires Valid()
      modifies bits
      ensures AllFree(Map())
      ensures forall k :: 8 * bytesLen <= k < |Bits()| ==> Bits()[k] == old(Bits()[k])
    {
      var i := 0;
      while i < bytesLen
        invariant 0 <= i <= bytesLen
        invariant forall k :: 0 <= k < i ==> bits[k] == 0
        invariant bits[bytesLen] == old(bits[bytesLen])
      {
        bits[i] := 0;
        i := i + 1;
      }
      BitsAt(bits[..]);
      BitsAt(old(bits[..]));
    }

    static ghost predicate AllFree(s: seq<bool>) {
      forall k :: 0 <= k < |s| ==> !s[k]
    }

    method ScanTest(bitIdx: nat) returns (b: bool)
      requires Valid() && bitIdx < 8 * bits.Length
      ensures b == Bits()[bitIdx]
    {
      BitPrefixAt(bits[..], 8 * bits.Length, bitIdx);
      b := BitOf(bits[bitIdx / 8], bitIdx % 8);
    }

    method Set(bitIdx: nat, value: bool)
      requires Valid() && bitIdx < 8 * bits.Length
      modifies bits
      ensures Bits() == old(Bits())[bitIdx := value]
    {
      var byteIdx, bitOdd := bitIdx / 8, bitIdx % 8;
      if value {
        bits[byteIdx] := bits[byteIdx] | Mask(bitOdd);
      } else {
        bits[byteIdx] := bits[byteIdx] & !Mask(bitOdd);
      }
      ByteUpdate(old(bits[..]), bits[..], bitIdx, value);
    }

    method Scan(cnt: nat) returns (r: ScanResult)
      requires Valid() && cnt >= 1
      ensures ScanSpec(Bits(), 8 * bytesLen, cnt, r)
    {
      var idxByte := 0;
      while bits[idxByte] == 0xff && idxByte < bytesLen
        invariant 0 <= idxByte <= bytesLen
        invariant forall k :: 0 <= k < idxByte ==> bits[k] == 0xff
        decreases bytesLen - idxByte
      {
        idxByte := idxByte + 1;
      }
      FullPrefix(bits[..], idxByte);
      if idxByte == bytesLen {
        return Panicked;  // the assertion that a full map trips
      }
      FullByte(bits[idxByte]);
      var idxBit := 0;
      while BitOf(bits[idxByte], idxBit)
        invariant 0 <= idxBit < 8
        invariant forall i :: 0 <= i < idxBit ==> BitOf(bits[idxByte], i)
        decreases 8 - idxBit
      {
        assert idxBit == 7 ==> false;
        idxBit := idxBit + 1;
      }
      var start := idxByte * 8 + idxBit;
      FirstFreeBit(bits[..], idxByte, idxBit);
      if cnt == 1 {
        FirstFitOne(Bits()[..8 * bytesLen], start);
        return Found(start);
      }
      assert !Map()[start];
      r := ScanRun(cnt, start);
    }

    /** The counting half of bitmap_scan, from the first free bit on. */
    method ScanRun(cnt: nat, start: nat) returns (r: ScanResult)
      requires Valid() && cnt >= 2 && start < 8 * bytesLen
      requires !Bits()[start] && forall k :: 0 <= k < start ==> Bits()[k]
      ensures Intended(Bits()[..8 * bytesLen + 1], cnt, r)
    {
      ghost var w := Bits()[..8 * bytesLen + 1];
      assert !w[start] && forall k :: 0 <= k < start ==> w[k];
      var bitLeft := bytesLen * 8 - start;
      var nextBit := start + 1;
      var count := 1;
      CountingStarts(w, cnt, start);
      while bitLeft > 0
        invariant nextBit + bitLeft == 8 * bytesLen + 1
        invariant Counting(w, cnt, nextBit, count)
        decreases bitLeft
      {
        bitLeft := bitLeft - 1;
        var b := ScanTest(nextBit);
        CountingStep(w, cnt, nextBit, count);
        if !b {
          count := count + 1;
        } else {
          count := 0;
        }
        if count == cnt {
          return Found(nextBit - cnt + 1);
        }
        nextBit := nextBit + 1;
      }
      return NotFound;
    }

    /** Marks a run of bits, as the callers of bitmap_scan do one bit at a time. */
    method SetRun(start: nat, cnt: nat, value: bool)
      requires Valid() && start + cnt <= 8 * bits.Length
      modifies bits
      ensures |Bits()| == |old(Bits())|
      ensures forall k :: 0 <= k < |Bits()| ==>
        Bits()[k] == if start <= k < start + cnt then value else old(Bits())[k]
    {
      var i := 0;
      while i < cnt
        invariant 0 <= i <= cnt
        invariant forall k :: 0 <= k < |Bits()| ==>
          Bits()[k] == if start <= k < start + i then value else old(Bits())[k]
      {
        Set(start + i, value);
        i := i + 1;
      }
    }
  }
}
