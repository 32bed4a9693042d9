/**
 * Byte sequences as the cipher sees them: Python's clamping slice
 * operations on `bytes`, and the bytewise XOR behind `_xor`.
 */
module Bytes {

  type byte = bv8

  function Min(a: nat, b: nat): nat { if a <= b then a else b }

  /** `s[lo:hi]` for non-negative bounds: both bounds are clamped to the
      length of `s`, and a slice whose start passes its end is empty. */
  function Slice<T>(s: seq<T>, lo: nat, hi: nat): (r: seq<T>)
    ensures lo <= hi <= |s| ==> r == s[lo..hi]
    ensures |s| <= lo || hi <= lo ==> r == []
    ensures |r| <= |s|
  {
    var a, b := Min(lo, |s|), Min(hi, |s|);
    if a <= b then s[a..b] else []
  }

  /** `s[-n:]` for `n >= 0`: the last `n` elements, the whole of `s` when it
      is shorter than `n`, and also the whole of `s` when `n == 0`, because
      `-0` is the index `0`. */
  function Tail<T>(s: seq<T>, n: nat): (r: seq<T>)
    ensures 0 < n <= |s| ==> r == s[|s| - n..] && |r| == n
    ensures n == 0 || |s| <= n ==> r == s
  {
    if n == 0 || |s| <= n then s else s[|s| - n..]
  }

  /** XOR of two equally long byte strings, byte by byte. */
  function Xor(a: seq<byte>, b: seq<byte>): (r: seq<byte>)
    requires |a| == |b|
    ensures |r| == |a|
  {
    if |a| == 0 then [] else [a[0] ^ b[0]] + Xor(a[1..], b[1..])
  }

  /** Byte `i` of the XOR is byte `i` of one input XOR byte `i` of the other. */
  lemma {:induction false} XorBytewise(a: seq<byte>, b: seq<byte>, i: nat)
    requires |a| == |b| && i < |a|
    ensures Xor(a, b)[i] == a[i] ^ b[i]
  {
    if i > 0 {
      XorBytewise(a[1..], b[1..], i - 1);
    }
  }

  /** XOR-ing the same mask twice gives back the input. */
  lemma {:induction false} XorCancel(a: seq<byte>, b: seq<byte>)
    requires |a| == |b|
    ensures Xor(Xor(a, b), b) == a
  {
    if |a| > 0 {
      var x := Xor(a, b);
      XorCancel(a[1..], b[1..]);
      assert x[1..] == Xor(a[1..], b[1..]);
      assert (a[0] ^ b[0]) ^ b[0] == a[0];
      assert a == [a[0]] + a[1..];
    }
  }

  /** Adjacent slices join into one. */
  lemma SliceConcat<T>(s: seq<T>, a: nat, b: nat, c: nat)
    requires a <= b <= c <= |s|
    ensures s[a..b] + s[b..c] == s[a..c]
  {
  }
}
