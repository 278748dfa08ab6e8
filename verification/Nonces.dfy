/** The frame counter: a 12-byte little-endian integer, incremented in place. */
module Nonces {
  import opened Bytes

  const NONCE_SIZE: nat := 12

  function Pow256(n: nat): (p: nat)
    ensures p > 0
  {
    if n == 0 then 1 else 0x100 * Pow256(n - 1)
  }

  function Value(n: seq<byte>): nat {
    if n == [] then 0 else n[0] + 0x100 * Value(n[1..])
  }

  /** The low `size` bytes of v, least significant first. */
  function LittleEndian(v: nat, size: nat): (b: seq<byte>)
    ensures |b| == size
  {
    if size == 0 then [] else [v % 0x100] + LittleEndian(v / 0x100, size - 1)
  }

  /** The k-th nonce a direction of the transport uses. */
  function Nonce(k: nat): (n: seq<byte>)
    ensures |n| == NONCE_SIZE
  {
    LittleEndian(k, NONCE_SIZE)
  }

  function Increment(n: seq<byte>): (r: seq<byte>)
    ensures |r| == |n|
  {
    if n == [] then []
    else if n[0] == 0xFF then [0] + Increment(n[1..])
    else [n[0] + 1] + n[1..]
  }

  lemma {:induction false} ValueBound(n: seq<byte>)
    ensures Value(n) < Pow256(|n|)
  {
    if n != [] {
      ValueBound(n[1..]);
    }
  }

  lemma {:induction false} IncrementCarries(n: seq<byte>)
    ensures Value(Increment(n)) == if Value(n) + 1 == Pow256(|n|) then 0 else Value(n) + 1
  {
    if n != [] {
      var tail := n[1..];
      IncrementCarries(tail);
      ValueBound(tail);
      assert Increment(n)[1..] == if n[0] == 0xFF then Increment(tail) else tail;
    }
  }

  lemma ModUpTo(x: nat, m: nat)
    requires 0 < m && x <= m
    ensures x % m == if x == m then 0 else x
  {
  }

  /** Incrementing adds one modulo 256 to the power of the width. */
  lemma IncrementAddsOne(n: seq<byte>)
    ensures Value(Increment(n)) == (Value(n) + 1) % Pow256(|n|)
  {
    hide Value, Increment, Pow256;
    IncrementCarries(n);
    ValueBound(n);
    ModUpTo(Value(n) + 1, Pow256(|n|));
  }

  lemma {:induction false} IncrementIsSuccessor(v: nat, size: nat)
    ensures Increment(LittleEndian(v, size)) == LittleEndian(v + 1, size)
  {
    if size > 0 {
      IncrementIsSuccessor(v / 0x100, size - 1);
      assert LittleEndian(v, size)[1..] == LittleEndian(v / 0x100, size - 1);
    }
  }

  lemma NonceStep(k: nat)
    ensures Increment(Nonce(k)) == Nonce(k + 1)
  {
    hide LittleEndian, Increment;
    IncrementIsSuccessor(k, NONCE_SIZE);
  }

  lemma {:induction false} LittleEndianInjective(a: nat, b: nat, size: nat)
    requires a < Pow256(size) && b < Pow256(size)
    requires LittleEndian(a, size) == LittleEndian(b, size)
    ensures a == b
  {
    if size > 0 {
      var x, y := LittleEndian(a, size), LittleEndian(b, size);
      assert x[0] == a % 0x100 && y[0] == b % 0x100;
      assert x[1..] == LittleEndian(a / 0x100, size - 1);
      assert y[1..] == LittleEndian(b / 0x100, size - 1);
      LittleEndianInjective(a / 0x100, b / 0x100, size - 1);
    }
  }

  /** No two of the first 2^96 nonces of a direction coincide. */
  lemma NoncesDistinct(i: nat, j: nat)
    requires i < j < Pow256(NONCE_SIZE)
    ensures Nonce(i) != Nonce(j)
  {
    if Nonce(i) == Nonce(j) {
      LittleEndianInjective(i, j, NONCE_SIZE);
    }
  }

  lemma {:induction false} CarryPrefix(n: seq<byte>, i: nat)
    requires i <= |n|
    requires forall j :: 0 <= j < i ==> n[j] == 0xFF
    ensures Increment(n) == Zeros(i) + Increment(n[i..])
  {
    if i == 0 {
      assert n[0..] == n;
    } else {
      CarryPrefix(n[1..], i - 1);
      assert n[1..][i - 1..] == n[i..];
      var rest := Increment(n[i..]);
      assert Increment(n) == [0] + (Zeros(i - 1) + rest);
      assert [0] + (Zeros(i - 1) + rest) == ([0] + Zeros(i - 1)) + rest;
      assert [0] + Zeros(i - 1) == Zeros(i);
    }
  }

  /** The k-th nonce is k in little-endian, so at most one k has it. */
  lemma {:induction false} LittleEndianValue(v: nat, size: nat)
    requires v < Pow256(size)
    ensures Value(LittleEndian(v, size)) == v
  {
    if size > 0 {
      LittleEndianValue(v / 0x100, size - 1);
      assert LittleEndian(v, size)[1..] == LittleEndian(v / 0x100, size - 1);
    }
  }

  method IncrementNonce(nonce: array<byte>)
    modifies nonce
    ensures nonce[..] == Increment(old(nonce[..]))
  {
    ghost var was := nonce[..];
    for i := 0 to nonce.Length
      invariant forall j :: 0 <= j < i ==> was[j] == 0xFF && nonce[j] == 0
      invariant forall j :: i <= j < nonce.Length ==> nonce[j] == was[j]
    {
      nonce[i] := (nonce[i] as int + 1) % 0x100;
      if nonce[i] != 0 {
        CarryPrefix(was, i);
        assert was[i..][1..] == was[i + 1..];
        return;
      }
    }
    CarryPrefix(was, nonce.Length);
  }
}
