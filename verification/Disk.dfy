/** Sectors, and the little-endian words that inodes, directory entries and block tables are made of. */
module Disks {
  const SECTOR_SIZE: nat := 512

  type byte = b: nat | b < 0x100
  type word = w: nat | w < 0x1_0000_0000
  type Sector = s: seq<byte> | |s| == SECTOR_SIZE witness seq(SECTOR_SIZE, _ => 0)

  function U32(n: int): word {
    n % 0x1_0000_0000
  }

  // ---------------------------------------------------------------- words in memory

  function BytesOf(w: word): (bs: seq<byte>)
    ensures |bs| == 4
  {
    [w % 0x100, w / 0x100 % 0x100, w / 0x10000 % 0x100, w / 0x1000000]
  }

  function WordOf(a: byte, b: byte, c: byte, d: byte): word {
    a + 0x100 * b + 0x10000 * c + 0x1000000 * d
  }

  /** Digit k of n to the base 256, the last one being number 0. */
  function ByteDigit(n: nat, k: nat): byte {
    if k == 0 then n % 0x100 else ByteDigit(n / 0x100, k - 1)
  }

  /** Little-endian: byte k of a word in memory is its digit k. */
  lemma LittleEndian(w: word, k: nat)
    requires k < 4
    ensures BytesOf(w)[k] == ByteDigit(w, k)
  {
    assert w / 0x10000 == w / 0x100 / 0x100 && w / 0x1000000 == w / 0x100 / 0x100 / 0x100;
    var n := w / 0x100 / 0x100;
    assert ByteDigit(w, 3) == ByteDigit(w / 0x100, 2) == ByteDigit(n, 1) == n / 0x100 % 0x100;
    assert ByteDigit(w, 2) == ByteDigit(w / 0x100, 1) == n % 0x100;
    assert ByteDigit(w, 1) == w / 0x100 % 0x100;
  }

  lemma WordBytes(w: word)
    ensures var bs := BytesOf(w); WordOf(bs[0], bs[1], bs[2], bs[3]) == w
  {
    assert w / 0x10000 == w / 0x100 / 0x100 && w / 0x1000000 == w / 0x100 / 0x100 / 0x100;
  }

  lemma BytesWord(a: byte, b: byte, c: byte, d: byte)
    ensures BytesOf(WordOf(a, b, c, d)) == [a, b, c, d]
  {
    var w := WordOf(a, b, c, d);
    assert w / 0x100 == b + 0x100 * c + 0x10000 * d;
    assert w / 0x10000 == c + 0x100 * d;
  }

  function Encode(ws: seq<word>): (bs: seq<byte>)
    ensures |bs| == 4 * |ws|
  {
    seq(4 * |ws|, k requires 0 <= k < 4 * |ws| => BytesOf(ws[k / 4])[k % 4])
  }

  function WordAt(bs: seq<byte>, i: nat): word
    requires 4 * i + 4 <= |bs|
  {
    WordOf(bs[4 * i], bs[4 * i + 1], bs[4 * i + 2], bs[4 * i + 3])
  }

  function Decode(bs: seq<byte>): (ws: seq<word>)
    ensures |ws| == |bs| / 4
  {
    seq(|bs| / 4, i requires 0 <= i < |bs| / 4 => WordAt(bs, i))
  }

  lemma InWord(i: nat, j: nat)
    requires j < 4
    ensures (4 * i + j) / 4 == i && (4 * i + j) % 4 == j
  {
  }

  lemma DecodeEncode(ws: seq<word>)
    ensures Decode(Encode(ws)) == ws
  {
    hide BytesOf, WordOf;
    forall i | 0 <= i < |ws| ensures WordAt(Encode(ws), i) == ws[i] {
      WordBytes(ws[i]);
      InWord(i, 0);
      InWord(i, 1);
      InWord(i, 2);
      InWord(i, 3);
    }
  }

  lemma EncodeDecode(bs: seq<byte>)
    requires |bs| % 4 == 0
    ensures Encode(Decode(bs)) == bs
  {
    hide BytesOf, WordOf;
    forall k | 0 <= k < |bs| ensures Encode(Decode(bs))[k] == bs[k] {
      var i := k / 4;
      BytesWord(bs[4 * i], bs[4 * i + 1], bs[4 * i + 2], bs[4 * i + 3]);
    }
  }

  /** Word i of a run of words lies at offset 4 * i. */
  lemma EncodedWord(ws: seq<word>, i: nat)
    requires i < |ws|
    ensures Encode(ws)[4 * i..4 * i + 4] == BytesOf(ws[i])
  {
    hide BytesOf;
    InWord(i, 0);
    InWord(i, 1);
    InWord(i, 2);
    InWord(i, 3);
  }

  // ---------------------------------------------------------------- runs of bytes

  /** memcpy of `data` into a buffer, at `off`. */
  function Splice(buf: seq<byte>, off: nat, data: seq<byte>): (r: seq<byte>)
    requires off + |data| <= |buf|
    ensures |r| == |buf|
    ensures forall k :: 0 <= k < |r| ==> r[k] == if off <= k < off + |data| then data[k - off] else buf[k]
  {
    buf[..off] + data + buf[off + |data|..]
  }

  function Zeros(n: nat): (r: seq<byte>)
    ensures |r| == n && forall k :: 0 <= k < n ==> r[k] == 0
  {
    seq(n, _ => 0)
  }

  /** Byte `k` of the run of sectors that starts at `lba`. */
  function ByteAt(d: seq<Sector>, lba: nat, k: nat): byte
    requires lba + k / SECTOR_SIZE < |d|
  {
    d[lba + k / SECTOR_SIZE][k % SECTOR_SIZE]
  }
}
