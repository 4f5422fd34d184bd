/** A byte-addressable volume, as the log and the store use it: a map from
    absolute byte offset to byte, where a byte never written reads as zero.
    Longs and ints are stored big-endian. */
module Volume {
  type Byte = bv8

  type Vol = map<nat, Byte>

  function GetByte(v: Vol, offset: nat): Byte
  {
    if offset in v then v[offset] else 0
  }

  /** Reads `length` bytes starting at `offset`. */
  function GetData(v: Vol, offset: nat, length: nat): (r: seq<Byte>)
    ensures |r| == length
    ensures forall i :: 0 <= i < length ==> r[i] == GetByte(v, offset + i)
  {
    seq(length, i requires 0 <= i < length => GetByte(v, offset + i))
  }

  /** Writes `data` at `offset`; every other byte keeps its value. */
  function PutData(v: Vol, offset: nat, data: seq<Byte>): (r: Vol)
    ensures forall i: nat :: offset <= i < offset + |data| ==> GetByte(r, i) == data[i - offset]
    ensures forall i: nat :: !(offset <= i < offset + |data|) ==> GetByte(r, i) == GetByte(v, i)
    decreases |data|
  {
    if data == [] then v else PutData(v[offset := data[0]], offset + 1, data[1..])
  }

  /** Big-endian encoding of a long. */
  function LongBytes(x: bv64): (r: seq<Byte>)
    ensures |r| == 8 && LongOf(r) == x
  {
    [((x >> 56) & 0xFF) as Byte, ((x >> 48) & 0xFF) as Byte,
     ((x >> 40) & 0xFF) as Byte, ((x >> 32) & 0xFF) as Byte,
     ((x >> 24) & 0xFF) as Byte, ((x >> 16) & 0xFF) as Byte,
     ((x >> 8) & 0xFF) as Byte, (x & 0xFF) as Byte]
  }

  function LongOf(b: seq<Byte>): bv64
    requires |b| == 8
  {
    (b[0] as bv64 << 56) | (b[1] as bv64 << 48) | (b[2] as bv64 << 40) | (b[3] as bv64 << 32)
    | (b[4] as bv64 << 24) | (b[5] as bv64 << 16) | (b[6] as bv64 << 8) | b[7] as bv64
  }

  /** Big-endian encoding of an int. */
  function IntBytes(x: bv32): (r: seq<Byte>)
    ensures |r| == 4 && IntOf(r) == x
  {
    [((x >> 24) & 0xFF) as Byte, ((x >> 16) & 0xFF) as Byte,
     ((x >> 8) & 0xFF) as Byte, (x & 0xFF) as Byte]
  }

  function IntOf(b: seq<Byte>): bv32
    requires |b| == 4
  {
    (b[0] as bv32 << 24) | (b[1] as bv32 << 16) | (b[2] as bv32 << 8) | b[3] as bv32
  }

  function PutLong(v: Vol, offset: nat, x: bv64): Vol
  {
    PutData(v, offset, LongBytes(x))
  }

  function GetLong(v: Vol, offset: nat): bv64
  {
    LongOf(GetData(v, offset, 8))
  }

  function PutInt(v: Vol, offset: nat, x: bv32): Vol
  {
    PutData(v, offset, IntBytes(x))
  }

  function GetInt(v: Vol, offset: nat): bv32
  {
    IntOf(GetData(v, offset, 4))
  }

  /** Data written at an offset reads back unchanged. */
  lemma {:induction false} PutGetData(v: Vol, offset: nat, data: seq<Byte>)
    ensures GetData(PutData(v, offset, data), offset, |data|) == data
  {
    var r := PutData(v, offset, data);
    assert forall i :: 0 <= i < |data| ==> GetData(r, offset, |data|)[i] == data[i];
  }

  /** A write leaves every byte range that does not overlap it unchanged. */
  lemma {:induction false} PutDataFrame(v: Vol, offset: nat, data: seq<Byte>, at: nat, length: nat)
    requires at + length <= offset || offset + |data| <= at
    ensures GetData(PutData(v, offset, data), at, length) == GetData(v, at, length)
  {
    var r := PutData(v, offset, data);
    assert forall i :: 0 <= i < length ==> GetData(r, at, length)[i] == GetData(v, at, length)[i];
  }

  /** A long written at an offset reads back unchanged. */
  lemma {:induction false} PutGetLong(v: Vol, offset: nat, x: bv64)
    ensures GetLong(PutLong(v, offset, x), offset) == x
  {
    PutGetData(v, offset, LongBytes(x));
  }

  /** An int written at an offset reads back unchanged. */
  lemma {:induction false} PutGetInt(v: Vol, offset: nat, x: bv32)
    ensures GetInt(PutInt(v, offset, x), offset) == x
  {
    PutGetData(v, offset, IntBytes(x));
  }
}
