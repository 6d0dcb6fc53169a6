/**
 * Byte-level helpers with Go semantics: the built-in `copy` and a 16-bit
 * store written through a native-endian pointer, modelled as little-endian.
 */
module Bytes {

  /** A Go `byte`. */
  type byte = bv8

  function Min(a: nat, b: nat): (m: nat)
    ensures m <= a && m <= b
    ensures m == a || m == b
  {
    if a <= b then a else b
  }

  /** A freshly allocated Go byte array or slice of length `n`: all zero. */
  function Zeros(n: nat): (r: seq<byte>)
    ensures |r| == n
    ensures forall i :: 0 <= i < n ==> r[i] == 0
  {
    seq(n, _ => 0)
  }

  /** True when no byte of `s` is NUL. */
  predicate NoNul(s: seq<byte>)
  {
    forall i :: 0 <= i < |s| ==> s[i] != 0
  }

  /**
   * The destination after Go's `copy(dst, src)`: the first min(len(dst), len(src))
   * bytes come from `src`, the rest of `dst` is untouched and `dst` keeps its length.
   */
  function Copy(dst: seq<byte>, src: seq<byte>): (r: seq<byte>)
    ensures |r| == |dst|
    ensures forall i :: 0 <= i < |dst| && i < |src| ==> r[i] == src[i]
    ensures forall i :: |src| <= i < |dst| ==> r[i] == dst[i]
  {
    if |dst| == 0 || |src| == 0 then dst
    else [src[0]] + Copy(dst[1..], src[1..])
  }

  /** The count Go's `copy(dst, src)` returns. */
  function CopyCount(dst: seq<byte>, src: seq<byte>): (n: nat)
    ensures n <= |dst| && n <= |src|
    ensures n == |dst| || n == |src|
  {
    Min(|dst|, |src|)
  }

  /** The copied bytes are exactly the first `n` bytes of the source. */
  lemma CopyPrefix(dst: seq<byte>, src: seq<byte>)
    ensures Copy(dst, src)[..CopyCount(dst, src)] == src[..CopyCount(dst, src)]
  {
  }

  /** A `uint16` laid out little-endian: low byte first. */
  function EncodeU16LE(v: bv16): (r: seq<byte>)
    ensures |r| == 2
    ensures DecodeU16LE(r) == v
  {
    [(v & 0xFF) as byte, (v >> 8) as byte]
  }

  /** Reads a little-endian `uint16` from two bytes. */
  function DecodeU16LE(b: seq<byte>): bv16
    requires |b| == 2
  {
    ((b[1] as bv16) << 8) | (b[0] as bv16)
  }

  /** The two halves of a little-endian `uint16` are its low and high bytes. */
  lemma SplitU16(lo: byte, hi: byte)
    ensures (((hi as bv16) << 8) | (lo as bv16)) & 0xFF == lo as bv16
    ensures (((hi as bv16) << 8) | (lo as bv16)) >> 8 == hi as bv16
  {
  }

  /** Decoding then encoding two bytes gives them back. */
  lemma DecodeEncodeU16LE(b: seq<byte>)
    requires |b| == 2
    ensures EncodeU16LE(DecodeU16LE(b)) == b
  {
    SplitU16(b[0], b[1]);
  }

  /**
   * `*(*uint16)(&buf[off]) = v` on a little-endian machine: bytes `off` and
   * `off + 1` take the value, every other byte is kept.
   */
  function PutU16LE(buf: seq<byte>, off: nat, v: bv16): (r: seq<byte>)
    requires off + 2 <= |buf|
    ensures |r| == |buf|
    ensures r[off..off + 2] == EncodeU16LE(v)
    ensures DecodeU16LE(r[off..off + 2]) == v
    ensures forall i :: 0 <= i < |buf| && i != off && i != off + 1 ==> r[i] == buf[i]
  {
    buf[..off] + EncodeU16LE(v) + buf[off + 2..]
  }
}
