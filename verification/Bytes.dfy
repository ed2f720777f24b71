/** Bytes, and the big-endian integers that the frame headers carry. */
module Bytes {
  type Byte = b: int | 0 <= b < 256
  type Data = seq<Byte>

  datatype Option<+T> = None | Some(value: T)

  function Min(a: int, b: int): (m: int)
    ensures m <= a && m <= b && (m == a || m == b)
  {
    if a <= b then a else b
  }

  function Zeros(n: nat): (z: Data)
    ensures |z| == n && forall i | 0 <= i < n :: z[i] == 0
  {
    seq(n, _ => 0)
  }

  /** `w` without its first `k` bytes; a shorter `w` is used up. */
  function Drop(w: Data, k: nat): Data {
    if k <= |w| then w[k..] else []
  }

  /** PutUint16(uint16(n)): the conversion to uint16 keeps the low 16 bits. */
  function PutU16(n: nat): (b: Data)
    ensures |b| == 2 && U16(b) == n % 0x1_0000
  {
    var m := n % 0x1_0000;
    [m / 256, m % 256]
  }

  function U16(b: Data): (n: nat)
    requires |b| == 2
    ensures n < 0x1_0000
  {
    var hi: nat, lo: nat := b[0], b[1];
    hi * 256 + lo
  }

  /** binary.Write of uint32(n): the conversion keeps the low 32 bits. */
  function PutU32(n: nat): (b: Data)
    ensures |b| == 4 && U32(b) == n % 0x1_0000_0000
  {
    var m := n % 0x1_0000_0000;
    PutU16(m / 0x1_0000) + PutU16(m % 0x1_0000)
  }

  function U32(b: Data): (n: nat)
    requires |b| == 4
    ensures n < 0x1_0000_0000
  {
    U16(b[..2]) * 0x1_0000 + U16(b[2..])
  }

  /** The most significant byte comes first. */
  lemma BigEndian(a: Byte, b: Byte, c: Byte, d: Byte)
    ensures U16([a, b]) == 0x100 * a + b
    ensures U32([a, b, c, d]) == 0x100_0000 * a + 0x1_0000 * b + 0x100 * c + d
  {
    assert [a, b, c, d][..2] == [a, b] && [a, b, c, d][2..] == [c, d];
  }

  lemma Regroup<T>(a: seq<T>, b: seq<T>, c: seq<T>)
    ensures a + (b + c) == (a + b) + c
  {
  }

  /** The concatenation of a list of byte strings. */
  function Concat(xs: seq<Data>): Data {
    if xs == [] then [] else xs[0] + Concat(xs[1..])
  }

  lemma {:induction false} ConcatAppend(xs: seq<Data>, ys: seq<Data>)
    ensures Concat(xs + ys) == Concat(xs) + Concat(ys)
  {
    if xs == [] {
      assert xs + ys == ys;
    } else {
      ConcatAppend(xs[1..], ys);
      assert (xs + ys)[1..] == xs[1..] + ys;
      Regroup(xs[0], Concat(xs[1..]), Concat(ys));
    }
  }
}
