/** Octets, fixed-width integers and the few sequence facts every layer needs. */
module Bytes {

  type byte = x: int | 0 <= x < 0x100
  type uint16 = x: int | 0 <= x < 0x1_0000

  datatype Option<+T> = None | Some(value: T)
  datatype Result<+T, +E> = Ok(value: T) | Err(error: E)

  function Min(a: int, b: int): int {
    if a < b then a else b
  }

  function BigEndian16(v: uint16): (b: seq<byte>)
    ensures |b| == 2 && FromBigEndian16(b) == v
  {
    [v / 0x100, v % 0x100]
  }

  function FromBigEndian16(b: seq<byte>): (v: uint16)
    requires |b| == 2
    ensures [v / 0x100, v % 0x100] == b
  {
    b[0] as int * 0x100 + b[1] as int
  }

  function Zeros(n: nat): (z: seq<byte>)
    ensures |z| == n && forall i :: 0 <= i < n ==> z[i] == 0
  {
    seq(n, _ => 0)
  }

  /** Taking and dropping inside the second half of a concatenation. */
  lemma SplitAppend<T>(a: seq<T>, b: seq<T>)
    ensures (a + b)[..|a|] == a && (a + b)[|a|..] == b
  {
  }

  lemma DropAppend<T>(a: seq<T>, b: seq<T>, n: nat)
    requires n <= |a|
    ensures (a + b)[n..] == a[n..] + b
  {
  }

  /** Taking n more off the front of what is left of p. */
  lemma DropMore<T>(a: seq<T>, b: seq<T>, p: seq<T>, t: nat, n: nat)
    requires t <= |p| && a + b == p[t..] && n <= |a|
    ensures t + n <= |p| && a[n..] + b == p[t + n..]
  {
    DropAppend(a, b, n);
    assert |a + b| == |p| - t;
    assert p[t..][n..] == p[t + n..];
  }

  /** A match of a and the first n of b with the front of d goes one further. */
  lemma OneMore<T>(a: seq<T>, b: seq<T>, d: seq<T>, n: nat)
    requires n < |b| && |a| + n < |d|
    requires a + b[..n] == d[..|a| + n] && b[n] == d[|a| + n]
    ensures a + b[..n + 1] == d[..|a| + n + 1]
  {
    assert b[..n + 1] == b[..n] + [b[n]];
    assert a + b[..n + 1] == (a + b[..n]) + [b[n]];
    assert d[..|a| + n + 1] == d[..|a| + n] + [d[|a| + n]];
  }

  lemma SliceFront<T>(a: seq<T>, b: seq<T>, i: nat, j: nat)
    requires i <= j <= |a|
    ensures (a + b)[i..j] == a[i..j]
  {
  }

  lemma SliceBack<T>(a: seq<T>, b: seq<T>, i: nat, j: nat)
    requires i <= j <= |b|
    ensures (a + b)[|a| + i..|a| + j] == b[i..j]
  {
  }

  /** A sequence put together again from six consecutive slices. */
  lemma SixParts<T>(a: seq<T>, b: seq<T>, c: seq<T>, d: seq<T>, e: seq<T>, f: seq<T>, p: seq<T>)
    requires var i, j, k, l := |a|, |a| + |b|, |a| + |b| + |c|, |a| + |b| + |c| + |d|;
      && l + |e| <= |p|
      && p[..i] == a && p[i..j] == b && p[j..k] == c && p[k..l] == d && p[l..l + |e|] == e && p[l + |e|..] == f
    ensures p == a + b + c + d + e + f
  {
    assert p[..|a + b|] == a + b;
    assert p[..|a + b + c|] == a + b + c;
    assert p[..|a + b + c + d|] == a + b + c + d;
    assert p[..|a + b + c + d + e|] == a + b + c + d + e;
  }
}
