/** Big-endian fields in a byte buffer, and Go's 64-bit signed arithmetic. */
module Bytes {
  newtype byte = x: int | 0 <= x < 256

  const TWO_32: int := 0x1_0000_0000
  const TWO_63: int := 0x8000_0000_0000_0000
  const TWO_64: int := 0x1_0000_0000_0000_0000

  function U32(d: seq<byte>, i: nat): (v: nat)
    requires i + 4 <= |d|
    ensures v < TWO_32
  {
    d[i] as int * 0x100_0000 + d[i + 1] as int * 0x1_0000 + d[i + 2] as int * 0x100 + d[i + 3] as int
  }

  function U64(d: seq<byte>, i: nat): (v: nat)
    requires i + 8 <= |d|
    ensures v < TWO_64
  {
    U32(d, i) * TWO_32 + U32(d, i + 4)
  }

  /** The four big-endian bytes of a 32-bit number. */
  function Be32(v: nat): (b: seq<byte>)
    requires v < TWO_32
    ensures |b| == 4 && U32(b, 0) == v
  {
    var q1 := v / 0x100;
    var q2 := q1 / 0x100;
    [(q2 / 0x100) as byte, (q2 % 0x100) as byte, (q1 % 0x100) as byte, (v % 0x100) as byte]
  }

  function Be64(v: nat): (b: seq<byte>)
    requires v < TWO_64
    ensures |b| == 8 && U64(b, 0) == v
  {
    var b := Be32(v / TWO_32) + Be32(v % TWO_32);
    assert U32(b, 0) == U32(Be32(v / TWO_32), 0) && U32(b, 4) == U32(Be32(v % TWO_32), 0);
    b
  }

  /** The buffer with the bytes b written over it at offset i. */
  function Splice(d: seq<byte>, i: nat, b: seq<byte>): (r: seq<byte>)
    requires i + |b| <= |d|
    ensures |r| == |d|
    ensures forall j :: 0 <= j < |d| ==> r[j] == if i <= j < i + |b| then b[j - i] else d[j]
  {
    d[..i] + b + d[i + |b|..]
  }

  function PutU32(d: seq<byte>, i: nat, v: nat): (r: seq<byte>)
    requires i + 4 <= |d| && v < TWO_32
    ensures |r| == |d| && U32(r, i) == v
    ensures forall j :: 0 <= j < |d| && !(i <= j < i + 4) ==> r[j] == d[j]
  {
    Splice(d, i, Be32(v))
  }

  function PutU64(d: seq<byte>, i: nat, v: nat): (r: seq<byte>)
    requires i + 8 <= |d| && v < TWO_64
    ensures |r| == |d| && U64(r, i) == v
    ensures forall j :: 0 <= j < |d| && !(i <= j < i + 8) ==> r[j] == d[j]
  {
    var r := Splice(d, i, Be64(v));
    assert U32(r, i) == U32(Be64(v), 0) && U32(r, i + 4) == U32(Be64(v), 4);
    r
  }

  /** Two's-complement reduction of an integer to Go's int64. */
  function Wrap64(x: int): (v: int)
    ensures -TWO_63 <= v < TWO_63
    ensures -TWO_63 <= x < TWO_63 ==> v == x
    ensures TWO_63 <= x < TWO_64 ==> v == x - TWO_64
  {
    var m := x % TWO_64;
    if m < TWO_63 then m else m - TWO_64
  }
}
