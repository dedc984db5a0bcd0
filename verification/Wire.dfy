/** Bytes and the 32-bit little-endian fields of the fixed-layout wire structures. */
module Wire {

  type byte = x: int | 0 <= x < 256

  const TWO_32 := 0x1_0000_0000
  const INT_MAX := 0x7fff_ffff

  type uint32 = x: int | 0 <= x < TWO_32

  /** The 32-bit field at offset `off` of a structure laid out in `b`. */
  function U32(b: seq<byte>, off: nat): (v: uint32)
    requires off + 4 <= |b|
  {
    var (b0: int, b1: int, b2: int, b3: int) := (b[off], b[off + 1], b[off + 2], b[off + 3]);
    b0 + 256 * b1 + 65536 * b2 + 16777216 * b3
  }

  /** Overwrites the bytes of `b` from offset `off` on with `v`. */
  function Splice(b: seq<byte>, off: nat, v: seq<byte>): (r: seq<byte>)
    requires off + |v| <= |b|
    ensures |r| == |b|
    ensures r[off..off + |v|] == v
    ensures forall i :: 0 <= i < |b| && !(off <= i < off + |v|) ==> r[i] == b[i]
  {
    b[..off] + v + b[off + |v|..]
  }

  /** The four bytes of `v`, least significant first. */
  function Bytes32(v: uint32): (r: seq<byte>)
    ensures |r| == 4
    ensures U32(r, 0) == v
  {
    [v % 256, v / 256 % 256, v / 65536 % 256, v / 16777216]
  }

  function PutU32(b: seq<byte>, off: nat, v: uint32): (r: seq<byte>)
    requires off + 4 <= |b|
    ensures |r| == |b|
    ensures U32(r, off) == v
    ensures forall i :: 0 <= i < |b| && !(off <= i < off + 4) ==> r[i] == b[i]
  {
    var r := Splice(b, off, Bytes32(v));
    assert r[off..off + 4] == Bytes32(v);
    assert U32(r[off..off + 4], 0) == U32(r, off);
    r
  }

  /** The value a C `int` holds after being assigned a 32-bit unsigned one. */
  function ToInt32(v: uint32): (r: int)
    ensures -INT_MAX - 1 <= r <= INT_MAX
    ensures (r - v) % TWO_32 == 0
  {
    if v <= INT_MAX then v else v - TWO_32
  }

  function ToUint32(v: int): (r: uint32)
    ensures (r - v) % TWO_32 == 0
  {
    v % TWO_32
  }

  /** Whether the single bit `bit` (a power of two) is set in `v`. */
  predicate HasBit(v: uint32, bit: int)
    requires bit > 0
  {
    v / bit % 2 == 1
  }

  /** The bits of the flags in use, told by remainders. */
  lemma BitsInUse(v: uint32)
    ensures HasBit(v, 1) <==> v % 2 == 1
    ensures HasBit(v, 2) <==> v % 4 >= 2
    ensures HasBit(v, 0x100) <==> v % 0x200 >= 0x100
    ensures HasBit(v, 0x800) <==> v % 0x1000 >= 0x800
  {
  }

  /** The least significant byte comes first. */
  lemma LittleEndian(b0: byte, b1: byte, b2: byte, b3: byte)
    ensures U32([b0, b1, b2, b3], 0) == ((b3 * 256 + b2) * 256 + b1) * 256 + b0
  {
  }

  /** Messages laid end to end. */
  function Concat<T>(ss: seq<seq<T>>): (r: seq<T>)
  {
    if ss == [] then [] else ss[0] + Concat(ss[1..])
  }

  lemma {:induction false} ConcatAppend<T>(a: seq<seq<T>>, b: seq<seq<T>>)
    ensures Concat(a + b) == Concat(a) + Concat(b)
  {
    if a == [] {
      assert a + b == b;
    } else {
      assert (a + b)[1..] == a[1..] + b;
      ConcatAppend(a[1..], b);
    }
  }

  lemma ConcatOne<T>(s: seq<T>)
    ensures Concat([s]) == s
  {
    assert [s][1..] == [];
  }

  lemma ConcatFirst<T>(ss: seq<seq<T>>, t: seq<T>)
    requires ss != []
    ensures Concat(ss) + t == ss[0] + (Concat(ss[1..]) + t)
  {
    var (x, y) := (ss[0], Concat(ss[1..]));
    assert Concat(ss) == x + y;
    assert x + y + t == x + (y + t);
  }

  lemma AppendFirst<T>(s: seq<T>, t: seq<T>)
    requires s != []
    ensures s + t == [s[0]] + (s[1..] + t)
  {
  }
}
