/** The PNG container as this program touches it: the file signature
    (section 5.2 of the PNG Specification, W3C 2nd ed. / ISO/IEC 15948), the
    chunk layout (section 5.3) and the tEXt payload (section 11.3.4.3). The
    chunk records come from a chunk reader that is not part of this model;
    here a chunk is the record that reader hands over. */
module Png {
  import opened Wrappers
  import LibC

  /** An `unsigned char`. */
  newtype byte = x: int | 0 <= x < 0x100
  /** The value of a C `unsigned int`. */
  newtype uint32 = x: int | 0 <= x < 0x1_0000_0000

  /** The 8-byte PNG signature: 137 'P' 'N' 'G' CR LF SUB LF. */
  const Signature: seq<byte> := [137, 80, 78, 71, 13, 10, 26, 10]

  /** The chunk type code "tEXt". */
  const TextType: seq<byte> := [0x74, 0x45, 0x58, 0x74]

  /** One chunk record: data length, 4-byte type code, data and the CRC that
      was stored in the file. */
  datatype Chunk = Chunk(length: uint32, ctype: seq<byte>, data: seq<byte>, crc: uint32)

  /** A record as a chunk reader produces it: the type is 4 bytes and the
      data is exactly `length` bytes long. */
  predicate WellFormed(c: Chunk) {
    |c.ctype| == 4 && |c.data| == c.length as int
  }

  predicate AllWellFormed(cs: seq<Chunk>) {
    forall i :: 0 <= i < |cs| ==> WellFormed(cs[i])
  }

  /** Byte `k` of `v`, counting from the least significant one (k = 0):
      the bits that `(v >> 8*k) & 0xff` selects. */
  function ByteOf(v: uint32, k: nat): byte
    requires k < 4
  {
    if k == 0 then (v % 0x100) as byte else ByteOf(v / 0x100, k - 1)
  }

  /** The value whose bytes, least significant first, are `b0 .. b3`. */
  function FromBytes(b0: byte, b1: byte, b2: byte, b3: byte): uint32 {
    (b0 as int + 0x100 * b1 as int + 0x1_0000 * b2 as int + 0x100_0000 * b3 as int) as uint32
  }

  /** Above the low byte `c`, the bytes of `c + 256 * x` are those of `x`. */
  lemma ByteOfShift(c: byte, x: uint32, k: nat)
    requires k < 3 && c as int + 0x100 * x as int < 0x1_0000_0000
    ensures ByteOf((c as int + 0x100 * x as int) as uint32, 0) == c
    ensures ByteOf((c as int + 0x100 * x as int) as uint32, k + 1) == ByteOf(x, k)
  {
    var v := c as int + 0x100 * x as int;
    assert v / 0x100 == x as int && v % 0x100 == c as int;
  }

  /** Assembling four bytes and taking the value apart again gives back the
      same bytes. */
  lemma FromBytesDigits(b0: byte, b1: byte, b2: byte, b3: byte)
    ensures ByteOf(FromBytes(b0, b1, b2, b3), 0) == b0
    ensures ByteOf(FromBytes(b0, b1, b2, b3), 1) == b1
    ensures ByteOf(FromBytes(b0, b1, b2, b3), 2) == b2
    ensures ByteOf(FromBytes(b0, b1, b2, b3), 3) == b3
  {
    var r2 := (b2 as int + 0x100 * b3 as int) as uint32;
    var r1 := (b1 as int + 0x100 * r2 as int) as uint32;
    assert FromBytes(b0, b1, b2, b3) as int == b0 as int + 0x100 * r1 as int;
    ByteOfShift(b2, b3 as uint32, 0);
    ByteOfShift(b1, r2, 0);
    ByteOfShift(b1, r2, 1);
    ByteOfShift(b0, r1, 0);
    ByteOfShift(b0, r1, 1);
    ByteOfShift(b0, r1, 2);
  }

  /** Every value is assembled from its own four bytes. */
  lemma ByteOfDecompose(v: uint32)
    ensures v == FromBytes(ByteOf(v, 0), ByteOf(v, 1), ByteOf(v, 2), ByteOf(v, 3))
  {
    var y := v / 0x100;
    var z := y / 0x100;
    var w := z / 0x100;
    assert v as int == ByteOf(v, 0) as int + 0x100 * y as int;
    assert y as int == ByteOf(y, 0) as int + 0x100 * z as int;
    assert z as int == ByteOf(z, 0) as int + 0x100 * w as int;
    assert w < 0x100;
    assert ByteOf(w, 0) == w as byte;
  }

  /** The 4 bytes of `v`, most significant first (network order). */
  function BeBytes(v: uint32): (r: seq<byte>)
    ensures |r| == 4
  {
    [ByteOf(v, 3), ByteOf(v, 2), ByteOf(v, 1), ByteOf(v, 0)]
  }

  /** The 4 bytes of `v`, least significant first: what `memcpy` of an
      `unsigned int` writes on a little-endian host. */
  function LeBytes(v: uint32): (r: seq<byte>)
    ensures |r| == 4
  {
    [ByteOf(v, 0), ByteOf(v, 1), ByteOf(v, 2), ByteOf(v, 3)]
  }

  /** One chunk on disk: big-endian length, type, data, big-endian CRC. */
  function ChunkBytes(c: Chunk): seq<byte> {
    BeBytes(c.length) + c.ctype + c.data + BeBytes(c.crc)
  }

  lemma ChunkBytesLength(c: Chunk)
    requires WellFormed(c)
    ensures |ChunkBytes(c)| == 12 + c.length as int
  {
  }

  /** The chunks written one after another, in order. */
  function Serialize(cs: seq<Chunk>): seq<byte> {
    if |cs| == 0 then [] else Serialize(cs[..|cs| - 1]) + ChunkBytes(cs[|cs| - 1])
  }

  /** The size formula: each chunk takes `12 + length` bytes. */
  function SerializedSize(cs: seq<Chunk>): nat {
    if |cs| == 0 then 0 else SerializedSize(cs[..|cs| - 1]) + 12 + cs[|cs| - 1].length as int
  }

  lemma {:induction false} SerializeLength(cs: seq<Chunk>)
    requires AllWellFormed(cs)
    ensures |Serialize(cs)| == SerializedSize(cs)
  {
    if |cs| > 0 {
      SerializeLength(cs[..|cs| - 1]);
      ChunkBytesLength(cs[|cs| - 1]);
    }
  }

  lemma {:induction false} SerializedSizeAppend(a: seq<Chunk>, b: seq<Chunk>)
    ensures SerializedSize(a + b) == SerializedSize(a) + SerializedSize(b)
  {
    if |b| == 0 {
      assert a + b == a;
    } else {
      assert (a + b)[..|a + b| - 1] == a + b[..|b| - 1];
      SerializedSizeAppend(a, b[..|b| - 1]);
    }
  }

  /** The tEXt payload: keyword, one NUL separator, text, and no trailing NUL. */
  function TextPayload(keyword: seq<byte>, text: seq<byte>): seq<byte> {
    keyword + [0] + text
  }

  /** Splits a tEXt payload at its first NUL: the bytes before it are the
      keyword and every byte after it is the text. No NUL: malformed. */
  function DecodeText(data: seq<byte>): (r: Option<(seq<byte>, seq<byte>)>)
    ensures r.None? <==> 0 !in data
    ensures r.Some? ==> data == TextPayload(r.value.0, r.value.1) && 0 !in r.value.0
  {
    match LibC.FirstIndexOf(data, 0)
    case None => None
    case Some(k) =>
      assert data == data[..k] + [0] + data[k + 1..];
      Some((data[..k], data[k + 1..]))
  }

  /** Decoding undoes building: the keyword must be free of NUL, the text
      may hold anything. */
  lemma DecodeTextPayload(keyword: seq<byte>, text: seq<byte>)
    requires 0 !in keyword
    ensures DecodeText(TextPayload(keyword, text)) == Some((keyword, text))
  {
    var data := TextPayload(keyword, text);
    var r := LibC.FirstIndexOf(data, 0);
    assert data[|keyword|] == 0;
    assert r.value == |keyword|;
    assert data[..|keyword|] == keyword;
    assert data[|keyword| + 1..] == text;
  }
}
