/**
 * Byte-level helpers shared by the frame codec and the transport: the
 * little-endian images of the 32-bit integers that both ends copy with a raw
 * `memcpy` or pointer cast of an `int` or a `uint32_t` (x86 host order).
 */
module Bytes {

  /** An octet; counted in bytes, never interpreted as a bit-vector. */
  newtype byte = x: int | 0 <= x < 256

  const TwoTo32: int := 0x1_0000_0000
  const TwoTo31: int := 0x8000_0000

  function Pow256(n: nat): (p: nat)
    ensures p >= 1
  {
    if n == 0 then 1 else 256 * Pow256(n - 1)
  }

  /** The number whose base-256 digits, least significant first, are `s`. */
  function LeValue(s: seq<byte>): (v: nat)
    ensures v < Pow256(|s|)
  {
    if s == [] then 0 else s[0] as nat + 256 * LeValue(s[1..])
  }

  /** The `n` least significant base-256 digits of `u`, least significant first. */
  function LeBytes(u: nat, n: nat): (r: seq<byte>)
    ensures |r| == n
  {
    if n == 0 then [] else [(u % 256) as byte] + LeBytes(u / 256, n - 1)
  }

  /** Digits read back give the number, when it fits in `n` digits. */
  lemma {:induction false} LeValueOfLeBytes(u: nat, n: nat)
    requires u < Pow256(n)
    ensures LeValue(LeBytes(u, n)) == u
  {
    if n > 0 {
      LeValueOfLeBytes(u / 256, n - 1);
      assert LeBytes(u, n)[1..] == LeBytes(u / 256, n - 1);
    }
  }

  /** The four bytes of a `uint32_t`, least significant first. */
  function U32Le(u: nat): (r: seq<byte>)
    requires u < TwoTo32
    ensures |r| == 4
  {
    LeBytes(u, 4)
  }

  /** The `uint32_t` stored at `s[pos..pos + 4]`. */
  function ReadU32(s: seq<byte>, pos: nat): (u: nat)
    requires pos + 4 <= |s|
    ensures u < TwoTo32
  {
    assert Pow256(4) == TwoTo32;
    LeValue(s[pos..pos + 4])
  }

  /** A C `int` (32-bit two's complement) as it lies in memory. */
  function I32Le(x: int): (r: seq<byte>)
    requires -TwoTo31 <= x < TwoTo31
    ensures |r| == 4
  {
    U32Le(if x < 0 then x + TwoTo32 else x)
  }

  /** The C `int` read by reinterpreting `s[pos..pos + 4]`. */
  function ReadI32(s: seq<byte>, pos: nat): (x: int)
    requires pos + 4 <= |s|
    ensures -TwoTo31 <= x < TwoTo31
  {
    var u := ReadU32(s, pos);
    if u < TwoTo31 then u else u - TwoTo32
  }

  /** Reading back what U32Le wrote gives the value, wherever the image lies. */
  lemma ReadU32Le(s: seq<byte>, pos: nat, u: nat)
    requires u < TwoTo32
    requires pos + 4 <= |s| && s[pos..pos + 4] == U32Le(u)
    ensures ReadU32(s, pos) == u
  {
    assert Pow256(4) == TwoTo32;
    LeValueOfLeBytes(u, 4);
  }

  /** Reading back what I32Le wrote gives the value, negative ones included. */
  lemma ReadI32Le(s: seq<byte>, pos: nat, x: int)
    requires -TwoTo31 <= x < TwoTo31
    requires pos + 4 <= |s| && s[pos..pos + 4] == I32Le(x)
    ensures ReadI32(s, pos) == x
  {
    ReadU32Le(s, pos, if x < 0 then x + TwoTo32 else x);
  }

  /** `n` zero bytes: a null pointer, when `n` is the pointer width. */
  function Zeros(n: nat): (r: seq<byte>)
    ensures |r| == n && forall k :: 0 <= k < n ==> r[k] == 0
  {
    seq(n, _ => 0)
  }

  /**
   * The bytes taken by `count` records of `size` bytes each, that is
   * `count * size` (SpanIsProduct). Kept recursive so that the product does
   * not reach the arithmetic of proofs that never need it.
   */
  function Span(count: nat, size: nat): nat {
    if count == 0 then 0 else Span(count - 1, size) + size
  }

  lemma {:induction false} SpanIsProduct(count: nat, size: nat)
    ensures Span(count, size) == count * size
  {
    if count > 0 {
      SpanIsProduct(count - 1, size);
    }
  }

  /** More records take at least as many bytes. */
  lemma {:induction false} SpanMono(a: nat, b: nat, size: nat)
    requires a <= b
    ensures Span(a, size) <= Span(b, size)
  {
    if a < b {
      SpanMono(a, b - 1, size);
    }
  }

  /** `s` with `z` written over it from index `at` on. */
  function Overwrite(s: seq<byte>, at: nat, z: seq<byte>): (r: seq<byte>)
    requires at + |z| <= |s|
    ensures |r| == |s|
  {
    s[..at] + z + s[at + |z|..]
  }

  /** After the write, the bytes up to its end are the old prefix then `z`; those past it are untouched. */
  lemma OverwriteSplit(s: seq<byte>, at: nat, z: seq<byte>, tail: nat)
    requires at + |z| <= tail <= |s|
    ensures Overwrite(s, at, z)[..at + |z|] == s[..at] + z
    ensures Overwrite(s, at, z)[tail..] == s[tail..]
  {
    var r := Overwrite(s, at, z);
    assert r[..at + |z|] == s[..at] + z;
    assert r[tail..] == s[tail..];
  }

  // ---------------------------------------------------------------------
  // Sequence lemmas, for bytes and for lists alike

  /** A slice is the concatenation of its two parts. */
  lemma SliceSplit<T>(s: seq<T>, a: nat, b: nat, c: nat)
    requires a <= b <= c <= |s|
    ensures s[a..c] == s[a..b] + s[b..c]
  {
  }

  /** Taking from, or dropping from, what is left after index `a`. */
  lemma SliceOfDrop<T>(s: seq<T>, a: nat, n: nat)
    requires a + n <= |s|
    ensures s[a..][..n] == s[a..a + n]
    ensures s[a..][n..] == s[a + n..]
  {
  }

  /** A slice of a prefix is the same slice of the whole. */
  lemma SliceOfTake<T>(s: seq<T>, k: nat, lo: nat, hi: nat)
    requires lo <= hi <= k <= |s|
    ensures s[..k][lo .. hi] == s[lo .. hi]
  {
  }

  /** A prefix of a prefix. */
  lemma TakeOfTake<T>(s: seq<T>, n: nat, m: nat)
    requires m <= n <= |s|
    ensures s[..n][..m] == s[..m]
  {
  }

  /** Taking all of a sequence gives the sequence. */
  lemma TakeAll<T>(s: seq<T>)
    ensures s[..|s|] == s
  {
  }

  /** A sequence is its three parts, cut at `a` and `b`. */
  lemma SplitThree<T>(s: seq<T>, a: nat, b: nat)
    requires a <= b <= |s|
    ensures s == s[..a] + s[a..b] + s[b..]
  {
  }

  /** The two parts of a concatenation are recovered by cutting at the first one's length. */
  lemma SplitAppend<T>(a: seq<T>, b: seq<T>)
    ensures (a + b)[..|a|] == a && (a + b)[|a|..] == b
  {
  }

  /** A slice inside the first part of a concatenation. */
  lemma SliceOfFront<T>(a: seq<T>, b: seq<T>, lo: nat, hi: nat)
    requires lo <= hi <= |a|
    ensures (a + b)[lo .. hi] == a[lo .. hi]
  {
  }

  /** Concatenation is associative. */
  lemma AppendAssoc<T>(a: seq<T>, b: seq<T>, c: seq<T>)
    ensures a + b + c == a + (b + c)
  {
  }

  /** Where `a + b` lies at `pos`, `a` lies at `pos` and `b` right after it. */
  lemma SliceOfConcat<T>(data: seq<T>, pos: nat, a: seq<T>, b: seq<T>)
    requires pos + |a| + |b| <= |data| && data[pos .. pos + |a| + |b|] == a + b
    ensures data[pos .. pos + |a|] == a
    ensures data[pos + |a| .. pos + |a| + |b|] == b
  {
    var w := data[pos .. pos + |a| + |b|];
    assert data[pos .. pos + |a|] == w[..|a|];
    assert data[pos + |a| .. pos + |a| + |b|] == w[|a|..];
  }

  /** Where `whole` lies at `pos`, so does each of its prefixes. */
  lemma SliceOfPrefix<T>(data: seq<T>, pos: nat, whole: seq<T>, part: seq<T>)
    requires pos + |whole| <= |data| && data[pos .. pos + |whole|] == whole && part <= whole
    ensures data[pos .. pos + |part|] == part
  {
    assert data[pos .. pos + |part|] == whole[..|part|];
  }
}
