/** First-frame padding: an exact popcount built by shuffle and pack, and the bit ratio it gives the wire. */
module Padding {
  import opened Bytes
  import opened Frames

  type bit = x: int | 0 <= x < 2

  function Pow2(n: nat): (p: nat)
    ensures p > 0
  {
    if n == 0 then 1 else 2 * Pow2(n - 1)
  }

  /** Number of set bits of an integer. */
  function OnesCount(b: nat): nat {
    if b == 0 then 0 else b % 2 + OnesCount(b / 2)
  }

  function Ones(s: seq<byte>): nat {
    if s == [] then 0 else OnesCount(s[0]) + Ones(s[1..])
  }

  function Sum(s: seq<bit>): nat {
    if s == [] then 0 else s[0] + Sum(s[1..])
  }

  function Bit(b: nat, j: nat): bit {
    if j == 0 then b % 2 else Bit(b / 2, j - 1)
  }

  /** b | 1<<j. */
  function OrBit(b: nat, j: nat): nat {
    if j == 0 then b / 2 * 2 + 1 else b % 2 + 2 * OrBit(b / 2, j - 1)
  }

  lemma {:induction false} OrBitSetsOneBit(b: nat, j: nat, i: nat)
    ensures Bit(OrBit(b, j), i) == if i == j then 1 else Bit(b, i)
  {
    if i > 0 && j > 0 {
      OrBitSetsOneBit(b / 2, j - 1, i - 1);
    }
  }

  lemma {:induction false} OrBitCounts(b: nat, j: nat)
    ensures OnesCount(OrBit(b, j)) == OnesCount(b) + 1 - Bit(b, j)
  {
    CountSplit(b / 2, b % 2);
    if j > 0 {
      OrBitCounts(b / 2, j - 1);
      CountSplit(OrBit(b / 2, j - 1), b % 2);
    } else {
      CountSplit(b / 2, 1);
    }
  }

  lemma CountSplit(high: nat, low: bit)
    ensures OnesCount(2 * high + low) == OnesCount(high) + low
  {
    assert (2 * high + low) / 2 == high && (2 * high + low) % 2 == low;
  }

  lemma {:induction false} OrBitBound(b: nat, j: nat, width: nat)
    requires b < Pow2(width) && j < width
    ensures OrBit(b, j) < Pow2(width)
  {
    if j > 0 {
      OrBitBound(b / 2, j - 1, width - 1);
    }
  }

  lemma {:induction false} OnesCountBound(b: nat, width: nat)
    requires b < Pow2(width)
    ensures OnesCount(b) <= width
  {
    if width > 0 {
      OnesCountBound(b / 2, width - 1);
    }
  }

  lemma ByteWidth()
    ensures Pow2(8) == 0x100
  {
    assert Pow2(4) == 16;
  }

  lemma {:induction false} OnesBound(s: seq<byte>)
    ensures Ones(s) <= 8 * |s|
  {
    if s != [] {
      ByteWidth();
      OnesCountBound(s[0], 8);
      OnesBound(s[1..]);
    }
  }

  lemma {:induction false} OnesAppend(a: seq<byte>, b: seq<byte>)
    ensures Ones(a + b) == Ones(a) + Ones(b)
  {
    if a == [] {
      assert a + b == b;
    } else {
      OnesAppend(a[1..], b);
      assert (a + b)[1..] == a[1..] + b;
    }
  }

  lemma {:induction false} OnesUpdate(s: seq<byte>, i: nat, v: byte)
    requires i < |s|
    ensures Ones(s[i := v]) == Ones(s) - OnesCount(s[i]) + OnesCount(v)
  {
    if i > 0 {
      OnesUpdate(s[1..], i - 1, v);
      assert s[i := v][1..] == s[1..][i - 1 := v];
    } else {
      assert s[0 := v][1..] == s[1..];
    }
  }

  lemma {:induction false} SumUpdate(s: seq<bit>, i: nat, v: bit)
    requires i < |s|
    ensures Sum(s[i := v]) == Sum(s) - s[i] + v
  {
    if i > 0 {
      SumUpdate(s[1..], i - 1, v);
      assert s[i := v][1..] == s[1..][i - 1 := v];
    } else {
      assert s[0 := v][1..] == s[1..];
    }
  }

  lemma {:induction false} SumAppend(a: seq<bit>, v: bit)
    ensures Sum(a + [v]) == Sum(a) + v
  {
    if a != [] {
      SumAppend(a[1..], v);
      assert (a + [v])[1..] == a[1..] + [v];
    }
  }

  lemma SumZeros(s: seq<bit>)
    requires forall i :: 0 <= i < |s| ==> s[i] == 0
    ensures Sum(s) == 0
  {
  }

  lemma OnesZeros(n: nat)
    ensures Ones(Zeros(n)) == 0
  {
    if n > 0 {
      OnesZeros(n - 1);
      assert Zeros(n)[1..] == Zeros(n - 1);
    }
  }

  /** Interleaving moves bits between padding and ciphertext without creating or losing any. */
  lemma {:induction false} SwapKeepsOnes(a: seq<byte>, b: seq<byte>)
    ensures Ones(Swapped(a, b)) + Ones(Swapped(b, a)) == Ones(a) + Ones(b)
    decreases |a|
  {
    var x, y := Swapped(a, b), Swapped(b, a);
    if a == [] || b == [] {
      assert x == a && y == b;
    } else if |a| == 1 || |b| == 1 {
      assert x == [b[0]] + a[1..] && y == [a[0]] + b[1..];
    } else {
      SwapKeepsOnes(a[2..], b[2..]);
      assert x == [b[0], a[1]] + Swapped(a[2..], b[2..]);
      assert y == [a[0], b[1]] + Swapped(b[2..], a[2..]);
      PairOnes(b[0], a[1], Swapped(a[2..], b[2..]));
      PairOnes(a[0], b[1], Swapped(b[2..], a[2..]));
      assert a == [a[0], a[1]] + a[2..] && b == [b[0], b[1]] + b[2..];
      PairOnes(a[0], a[1], a[2..]);
      PairOnes(b[0], b[1], b[2..]);
    }
  }

  lemma PairOnes(p: byte, q: byte, s: seq<byte>)
    ensures Ones([p, q] + s) == OnesCount(p) + OnesCount(q) + Ones(s)
  {
    assert ([p, q] + s)[1..] == [q] + s;
    assert ([q] + s)[1..] == s;
  }

  /** A slice of an array, as Go passes them. */
  datatype Slice = Slice(a: array<byte>, lo: nat, hi: nat) {
    predicate Valid() {
      lo <= hi <= a.Length
    }

    predicate Has(b: array<byte>, k: int) {
      a == b && lo <= k < hi
    }

    predicate Disjoint(that: Slice) {
      a == that.a ==> hi <= that.lo || that.hi <= lo
    }

    function Bytes(): (b: seq<byte>)
      requires Valid()
      reads a
      ensures |b| == hi - lo
    {
      a[lo..hi]
    }
  }

  /** Swapped as far as position i. */
  function SwappedUpTo(a: seq<byte>, b: seq<byte>, i: nat): (r: seq<byte>)
    ensures |r| == |a|
  {
    seq(|a|, j requires 0 <= j < |a| => if j % 2 == 0 && j < i && j < |b| then b[j] else a[j])
  }

  lemma SwappedStep(a: seq<byte>, b: seq<byte>, i: nat)
    requires i % 2 == 0 && i < |a| && i < |b|
    ensures SwappedUpTo(a, b, i + 2) == SwappedUpTo(a, b, i)[i := b[i]]
    ensures SwappedUpTo(a, b, i)[i] == a[i]
  {
  }

  lemma SwappedEnds(a: seq<byte>, b: seq<byte>, i: nat)
    ensures SwappedUpTo(a, b, 0) == a
    ensures i >= |a| || i >= |b| ==> SwappedUpTo(a, b, i) == Swapped(a, b)
  {
  }

  method Exchange(p: Slice, c: Slice, i: nat)
    requires p.Valid() && c.Valid() && p.Disjoint(c)
    requires i < p.hi - p.lo && i < c.hi - c.lo
    modifies p.a, c.a
    ensures p.Bytes() == old(p.Bytes())[i := old(c.Bytes())[i]]
    ensures c.Bytes() == old(c.Bytes())[i := old(p.Bytes())[i]]
    ensures forall k :: 0 <= k < p.a.Length && !p.Has(p.a, k) && !c.Has(p.a, k) ==> p.a[k] == old(p.a[k])
    ensures forall k :: 0 <= k < c.a.Length && !p.Has(c.a, k) && !c.Has(c.a, k) ==> c.a[k] == old(c.a[k])
  {
    p.a[p.lo + i], c.a[c.lo + i] := c.a[c.lo + i], p.a[p.lo + i];
  }

  /** swapPadding on two slices that do not overlap. */
  method SwapPadding(p: Slice, c: Slice)
    requires p.Valid() && c.Valid() && p.Disjoint(c)
    modifies p.a, c.a
    ensures p.Bytes() == Swapped(old(p.Bytes()), old(c.Bytes()))
    ensures c.Bytes() == Swapped(old(c.Bytes()), old(p.Bytes()))
    ensures forall k :: 0 <= k < p.a.Length && !p.Has(p.a, k) && !c.Has(p.a, k) ==> p.a[k] == old(p.a[k])
    ensures forall k :: 0 <= k < c.a.Length && !p.Has(c.a, k) && !c.Has(c.a, k) ==> c.a[k] == old(c.a[k])
  {
    hide SwappedUpTo, Slice.Bytes;
    var limit := Min(p.hi - p.lo, c.hi - c.lo);
    ghost var x, y := p.Bytes(), c.Bytes();
    SwappedEnds(x, y, 0);
    SwappedEnds(y, x, 0);
    var i := 0;
    while i < limit
      invariant i % 2 == 0 && i <= limit + 1
      invariant p.Bytes() == SwappedUpTo(x, y, i) && c.Bytes() == SwappedUpTo(y, x, i)
      invariant forall k :: 0 <= k < p.a.Length && !p.Has(p.a, k) && !c.Has(p.a, k) ==> p.a[k] == old(p.a[k])
      invariant forall k :: 0 <= k < c.a.Length && !p.Has(c.a, k) && !c.Has(c.a, k) ==> c.a[k] == old(c.a[k])
    {
      SwappedStep(x, y, i);
      SwappedStep(y, x, i);
      Exchange(p, c, i);
      i := i + 2;
    }
    SwappedEnds(x, y, i);
    SwappedEnds(y, x, i);
  }

  method CountPayloadOnes(payloadCipher: seq<byte>) returns (ones: nat)
    ensures ones == CountedOnes(payloadCipher)
  {
    var limit := |payloadCipher| - |payloadCipher| % 4;
    ones := 0;
    for i := 0 to limit
      invariant ones == Ones(payloadCipher[..i])
    {
      assert payloadCipher[..i + 1] == payloadCipher[..i] + [payloadCipher[i]];
      OnesAppend(payloadCipher[..i], [payloadCipher[i]]);
      ones := ones + OnesCount(payloadCipher[i]);
    }
  }

  /** Whole four-byte groups only. */
  function CountedOnes(payloadCipher: seq<byte>): nat {
    Ones(payloadCipher[..|payloadCipher| - |payloadCipher| % 4])
  }

  /** The at most three trailing bytes the count skips hold at most 24 ones. */
  lemma CountedOnesBound(payloadCipher: seq<byte>)
    ensures CountedOnes(payloadCipher) <= Ones(payloadCipher) <= CountedOnes(payloadCipher) + 24
  {
    var n := |payloadCipher| - |payloadCipher| % 4;
    assert payloadCipher == payloadCipher[..n] + payloadCipher[n..];
    OnesAppend(payloadCipher[..n], payloadCipher[n..]);
    OnesBound(payloadCipher[n..]);
  }

  /** crypto/rand: any value below max. */
  method RandomInt(max: nat) returns (n: nat)
    requires max > 0
    ensures n < max
  {
    n :| 0 <= n < max;
  }

  method FillBits(totalBits: nat, oneBits: nat) returns (bitset: array<bit>)
    requires oneBits <= totalBits
    ensures fresh(bitset) && bitset.Length == totalBits && Sum(bitset[..]) == oneBits
  {
    bitset := new bit[totalBits](_ => 0);
    SumZeros(bitset[..]);
    for i := 0 to oneBits
      invariant Sum(bitset[..]) == i
      invariant forall j :: i <= j < totalBits ==> bitset[j] == 0
    {
      SumUpdate(bitset[..], i, 1);
      ghost var was := bitset[..];
      bitset[i] := 1;
      assert bitset[..] == was[i := 1];
    }
  }

  /** Fisher-Yates: whatever is drawn, the bits are permuted. */
  method Shuffle(bitset: array<bit>)
    modifies bitset
    ensures multiset(bitset[..]) == multiset(old(bitset[..]))
    ensures Sum(bitset[..]) == Sum(old(bitset[..]))
  {
    var i := bitset.Length - 1;
    while i > 0
      invariant i < bitset.Length
      invariant multiset(bitset[..]) == multiset(old(bitset[..]))
      invariant Sum(bitset[..]) == Sum(old(bitset[..]))
    {
      var j := RandomInt(i + 1);
      ghost var was := bitset[..];
      SumUpdate(was, i, was[j]);
      SumUpdate(was[i := was[j]], j, was[i]);
      bitset[i], bitset[j] := bitset[j], bitset[i];
      assert bitset[..] == was[i := was[j]][j := was[i]];
      i := i - 1;
    }
  }

  /** Bit i of the set lands in bit i%8 of byte i/8, so packing keeps the count. */
  method PackBits(bitset: array<bit>, length: nat) returns (padding: array<byte>)
    requires bitset.Length == 8 * length
    ensures fresh(padding) && padding.Length == length
    ensures forall i :: 0 <= i < bitset.Length ==> Bit(padding[i / 8], i % 8) == bitset[i]
    ensures Ones(padding[..]) == Sum(bitset[..])
  {
    padding := new byte[length](_ => 0);
    assert padding[..] == Zeros(length);
    OnesZeros(length);
    BitsOfZero();
    for i := 0 to bitset.Length
      invariant forall j :: 0 <= j < i ==> Bit(padding[j / 8], j % 8) == bitset[j]
      invariant forall j :: i <= j < bitset.Length ==> Bit(padding[j / 8], j % 8) == 0
      invariant Ones(padding[..]) == Sum(bitset[..i])
    {
      SumAppend(bitset[..i], bitset[i]);
      assert bitset[..i + 1] == bitset[..i] + [bitset[i]];
      if bitset[i] == 1 {
        SetBit(padding, i);
      }
    }
    assert bitset[..bitset.Length] == bitset[..];
  }

  lemma BitsOfZero()
    ensures forall j: nat :: Bit(0, j) == 0
  {
    forall j: nat ensures Bit(0, j) == 0 {
      ZeroBit(j);
    }
  }

  lemma ZeroBit(j: nat)
    ensures Bit(0, j) == 0
  {
  }

  /** padding[i/8] |= 1 << (i%8) on a clear bit. */
  method SetBit(padding: array<byte>, i: nat)
    requires i < 8 * padding.Length && Bit(padding[i / 8], i % 8) == 0
    modifies padding
    ensures Ones(padding[..]) == Ones(old(padding[..])) + 1
    ensures forall j :: 0 <= j < 8 * padding.Length ==>
      Bit(padding[j / 8], j % 8) == if i == j then 1 else Bit(old(padding[j / 8]), j % 8)
  {
    ghost var was := padding[..];
    var b := padding[i / 8];
    ByteWidth();
    OrBitBound(b, i % 8, 8);
    OrBitCounts(b, i % 8);
    OnesUpdate(was, i / 8, OrBit(b, i % 8));
    padding[i / 8] := OrBit(b, i % 8);
    assert padding[..] == was[i / 8 := OrBit(b, i % 8)];
    forall j | 0 <= j < 8 * padding.Length
      ensures Bit(padding[j / 8], j % 8) == if i == j then 1 else Bit(was[j / 8], j % 8)
    {
      OrBitSetsOneBit(b, i % 8, j % 8);
    }
  }

  /** Exactly `length` bytes with exactly `oneBits` ones, or None where the source returns an error. */
  method MakeBitCountPadding(length: nat, oneBits: int) returns (padding: Option<array<byte>>)
    ensures padding.Some? <==> 0 <= oneBits <= 8 * length
    ensures padding.Some? ==>
      fresh(padding.value) && padding.value.Length == length && Ones(padding.value[..]) == oneBits
  {
    if oneBits < 0 || oneBits > 8 * length {
      return None;
    }
    var bitset := FillBits(8 * length, oneBits);
    Shuffle(bitset);
    var p := PackBits(bitset, length);
    return Some(p);
  }

  method MakeRandomPadding(length: nat) returns (padding: array<byte>)
    ensures fresh(padding) && padding.Length == length
  {
    padding := new byte[length](_ => 0);
    for i := 0 to length {
      padding[i] := RandomInt(0x100);
    }
  }

  /** int(x) of a float: toward zero. */
  function Truncate(x: real): int {
    if x >= 0.0 then x.Floor else -(-x).Floor
  }

  /** The ones-to-zeros ratio aimed at: away from the side the payload already leans to. */
  function TargetRatio(payloadOnes: nat, payloadZeros: nat, jitter: real): (r: real)
    requires 0.0 <= jitter < 1.0
    ensures 1.6 <= r < 1.7 || 0.4 <= r < 0.5
  {
    (if payloadZeros < payloadOnes then 0.4 else 1.6) + jitter / 10.0
  }

  /** T * r/(r+1): how many ones of totalBits give ratio r. */
  function IdealOnes(totalBits: nat, r: real): real
    requires r > 0.0
  {
    totalBits as real * (r / (r + 1.0))
  }

  function RatioOf(payloadCipher: seq<byte>, jitter: real): (r: real)
    requires 0.0 <= jitter < 1.0
    ensures 1.6 <= r < 1.7 || 0.4 <= r < 0.5
  {
    var ones := CountedOnes(payloadCipher);
    CountedOnesBound(payloadCipher);
    OnesBound(payloadCipher);
    TargetRatio(ones, 8 * |payloadCipher| - ones, jitter)
  }

  /** The popcount the padding must have, or None where the source falls back to random padding. */
  function TargetOnes(payloadCipher: seq<byte>, paddingLength: nat, jitter: real): Option<nat>
    requires 0.0 <= jitter < 1.0
  {
    var ones := CountedOnes(payloadCipher);
    var zeros := 8 * |payloadCipher| - ones;
    if zeros <= 0 then None
    else
      var ratio := ones as real / zeros as real;
      if ratio <= 0.5 || ratio >= 1.6 then None
      else
        var r := TargetRatio(ones, zeros, jitter);
        var t := Truncate(IdealOnes(8 * (paddingLength + |payloadCipher|), r) - ones as real);
        if t < 0 || t > 8 * paddingLength then None else Some(t)
  }

  /** The padding is as the ratio rule asks for this jitter. */
  predicate Chosen(payloadCipher: seq<byte>, padding: seq<byte>, jitter: real) {
    && 0.0 <= jitter < 1.0
    && var t := TargetOnes(payloadCipher, |padding|, jitter);
       t.Some? ==> Ones(padding) == t.value
  }

  method MakePadding(payloadCipher: seq<byte>, paddingLength: nat, jitter: real) returns (padding: array<byte>)
    requires 0.0 <= jitter < 1.0
    ensures fresh(padding) && padding.Length == paddingLength
    ensures Chosen(payloadCipher, padding[..], jitter)
  {
    var ones := CountPayloadOnes(payloadCipher);
    var zeros := 8 * |payloadCipher| - ones;
    if zeros <= 0 {
      padding := MakeRandomPadding(paddingLength);
      return;
    }
    var ratio := ones as real / zeros as real;
    if ratio <= 0.5 || ratio >= 1.6 {
      padding := MakeRandomPadding(paddingLength);
      return;
    }
    var r := TargetRatio(ones, zeros, jitter);
    var totalBits := 8 * (paddingLength + |payloadCipher|);
    var targetOnes := Truncate(IdealOnes(totalBits, r) - ones as real);
    if targetOnes < 0 || targetOnes > 8 * paddingLength {
      padding := MakeRandomPadding(paddingLength);
      return;
    }
    var p := MakeBitCountPadding(paddingLength, targetOnes);
    padding := p.value;
  }

  lemma TruncateWithinOne(x: real)
    ensures x - 1.0 < Truncate(x) as real < x + 1.0
  {
  }

  /**
   * Where the popcount branch is taken, the ones on the wire after the interleave are strictly between one below
   * and 25 above the ideal count of the chosen ratio.
   */
  lemma WireRatio(payloadCipher: seq<byte>, padding: seq<byte>, jitter: real)
    requires Chosen(payloadCipher, padding, jitter)
    requires TargetOnes(payloadCipher, |padding|, jitter).Some?
    ensures var onWire := Ones(Swapped(padding, payloadCipher) + Swapped(payloadCipher, padding)) as real;
      var ideal := IdealOnes(8 * (|padding| + |payloadCipher|), RatioOf(payloadCipher, jitter));
      ideal - 1.0 < onWire < ideal + 25.0
  {
    OnesAppend(Swapped(padding, payloadCipher), Swapped(payloadCipher, padding));
    SwapKeepsOnes(padding, payloadCipher);
    CountedOnesBound(payloadCipher);
    var ideal := IdealOnes(8 * (|padding| + |payloadCipher|), RatioOf(payloadCipher, jitter));
    TruncateWithinOne(ideal - CountedOnes(payloadCipher) as real);
  }

  /** Only the last one to three bytes go uncounted. */
  lemma CountedOnesExact(groups: seq<byte>, tail: seq<byte>)
    requires |groups| % 4 == 0 && |tail| < 4
    ensures CountedOnes(groups + tail) == Ones(groups)
  {
    hide Ones;
    var c, q := groups + tail, |groups| / 4;
    assert |c| == 4 * q + |tail|;
    assert |c| % 4 == |tail|;
    SplitAppend(groups, tail);
  }

  /**
   * When the popcount branch is taken, in plain numbers: the counted bits are neither all ones, nor at most half as many
   * ones as zeros, nor at least 1.6 times as many; and the count asked for is one the padding can have.
   */
  lemma BranchTaken(payloadCipher: seq<byte>, paddingLength: nat, jitter: real)
    requires 0.0 <= jitter < 1.0
    ensures var ones := CountedOnes(payloadCipher);
      var zeros := 8 * |payloadCipher| - ones;
      var r := (if ones > zeros then 0.4 else 1.6) + jitter / 10.0;
      var wanted := (8 * (paddingLength + |payloadCipher|)) as real * (r / (r + 1.0)) - ones as real;
      TargetOnes(payloadCipher, paddingLength, jitter).None?
      <==> zeros <= 0 || 2 * ones <= zeros || 5 * ones >= 8 * zeros || wanted <= -1.0 || wanted >= (8 * paddingLength + 1) as real
  {
    hide CountedOnes, Truncate;
    var ones := CountedOnes(payloadCipher);
    var zeros := 8 * |payloadCipher| - ones;
    if zeros > 0 {
      RatioInIntegers(ones, zeros);
      TruncateRange(IdealOnes(8 * (paddingLength + |payloadCipher|), TargetRatio(ones, zeros, jitter)) - ones as real,
                    8 * paddingLength);
    }
  }

  lemma TruncateRange(x: real, m: nat)
    ensures Truncate(x) < 0 <==> x <= -1.0
    ensures Truncate(x) > m <==> x >= (m + 1) as real
  {
  }

  /** A quotient against a bound. */
  lemma Quotient(x: real, y: real, c: real)
    requires y > 0.0
    ensures x / y < c <==> x < c * y
    ensures x / y <= c <==> x <= c * y
  {
    var q := x / y;
    assert q * y == x;
    assert (c - q) * y == c * y - x;
    if q < c {
      Positive(c - q, y);
    } else if q > c {
      Positive(q - c, y);
      assert (q - c) * y == x - c * y;
    }
  }

  lemma Positive(a: real, b: real)
    requires a > 0.0 && b > 0.0
    ensures a * b > 0.0
  {
  }

  lemma RatioInIntegers(ones: nat, zeros: nat)
    requires zeros > 0
    ensures ones as real / zeros as real <= 0.5 <==> 2 * ones <= zeros
    ensures ones as real / zeros as real >= 1.6 <==> 5 * ones >= 8 * zeros
  {
    Quotient(ones as real, zeros as real, 0.5);
    Quotient(ones as real, zeros as real, 1.6);
  }

  /** The band the ratio is drawn from: the low one when the counted bits lean to ones. */
  lemma RatioBand(payloadCipher: seq<byte>, jitter: real)
    requires 0.0 <= jitter < 1.0
    ensures if 2 * CountedOnes(payloadCipher) > 8 * |payloadCipher| then 0.4 <= RatioOf(payloadCipher, jitter) < 0.5
            else 1.6 <= RatioOf(payloadCipher, jitter) < 1.7
  {
    hide CountedOnes;
  }

  /** r/(r+1) for the two bands of r. */
  lemma FractionBands(r: real)
    requires r > 0.0
    ensures 0.4 <= r < 0.5 ==> 2.0 / 7.0 <= r / (r + 1.0) < 1.0 / 3.0
    ensures 1.6 <= r < 1.7 ==> 8.0 / 13.0 <= r / (r + 1.0) < 17.0 / 27.0
  {
    Quotient(r, r + 1.0, 2.0 / 7.0);
    Quotient(r, r + 1.0, 1.0 / 3.0);
    Quotient(r, r + 1.0, 8.0 / 13.0);
    Quotient(r, r + 1.0, 17.0 / 27.0);
  }

  /**
   * What goes out, in integers: with more counted ones than zeros in the ciphertext, between two sevenths and a third of
   * all bits on the wire are ones, else between 8/13 and 17/27, up to one bit below and 25 above.
   */
  lemma WireBands(payloadCipher: seq<byte>, padding: seq<byte>, jitter: real)
    requires Chosen(payloadCipher, padding, jitter)
    requires TargetOnes(payloadCipher, |padding|, jitter).Some?
    ensures var bits := 8 * (|padding| + |payloadCipher|);
      var ones := Ones(Swapped(padding, payloadCipher) + Swapped(payloadCipher, padding));
      if 2 * CountedOnes(payloadCipher) > 8 * |payloadCipher| then
        2 * bits - 7 < 7 * ones && 3 * ones < bits + 75
      else
        8 * bits - 13 < 13 * ones && 27 * ones < 17 * bits + 675
  {
    hide CountedOnes, Ones, Swapped, TargetOnes, RatioOf, Chosen, IdealOnes;
    WireRatio(payloadCipher, padding, jitter);
    JitterRange(payloadCipher, padding, jitter);
    RatioBand(payloadCipher, jitter);
    var bits, r := 8 * (|padding| + |payloadCipher|), RatioOf(payloadCipher, jitter);
    IdealBands(bits, r);
    Rounded(Ones(Swapped(padding, payloadCipher) + Swapped(payloadCipher, padding)), bits, IdealOnes(bits, r));
  }

  lemma JitterRange(payloadCipher: seq<byte>, padding: seq<byte>, jitter: real)
    requires Chosen(payloadCipher, padding, jitter)
    ensures 0.0 <= jitter < 1.0
  {
  }

  lemma IdealBands(bits: nat, r: real)
    requires r > 0.0
    ensures var ideal := IdealOnes(bits, r);
      && (0.4 <= r < 0.5 ==> 2.0 * bits as real <= 7.0 * ideal && 3.0 * ideal <= bits as real)
      && (1.6 <= r < 1.7 ==> 8.0 * bits as real <= 13.0 * ideal && 27.0 * ideal <= 17.0 * bits as real)
  {
    hide IdealOnes;
    FractionBands(r);
    if 0.4 <= r < 0.5 {
      Between(bits, r, 2.0 / 7.0, 1.0 / 3.0);
    } else if 1.6 <= r < 1.7 {
      Between(bits, r, 8.0 / 13.0, 17.0 / 27.0);
    }
  }

  lemma Between(bits: nat, r: real, low: real, high: real)
    requires r > 0.0 && low <= r / (r + 1.0) <= high
    ensures low * bits as real <= IdealOnes(bits, r) <= high * bits as real
  {
    var q, b := r / (r + 1.0), bits as real;
    Scaled(b, low, q);
    Scaled(b, q, high);
  }

  lemma Scaled(b: real, x: real, y: real)
    requires b >= 0.0 && x <= y
    ensures x * b <= y * b && b * x <= b * y
  {
  }

  lemma Rounded(ones: nat, bits: nat, ideal: real)
    requires ideal - 1.0 < ones as real < ideal + 25.0
    ensures 2.0 * bits as real <= 7.0 * ideal ==> 2 * bits - 7 < 7 * ones
    ensures 3.0 * ideal <= bits as real ==> 3 * ones < bits + 75
    ensures 8.0 * bits as real <= 13.0 * ideal ==> 8 * bits - 13 < 13 * ones
    ensures 27.0 * ideal <= 17.0 * bits as real ==> 27 * ones < 17 * bits + 675
  {
  }
}
