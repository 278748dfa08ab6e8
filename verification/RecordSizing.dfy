/** Dynamic record sizing: how large the next frame of a burst may be. Times are in nanoseconds. */
module RecordSizing {
  import opened Bytes
  import opened Frames
  import opened Streams

  const FRAME_SIZE: uint16 := 1460
  const INITIAL_PADDING_MIN: uint16 := 0x100
  const INITIAL_PADDING_SPAN: uint16 := 0x100
  const SMALLEST_LIMIT: uint16 := 894
  const STEP: uint16 := 1421
  const IDLE: int := 30_000_000_000

  /** The writer fields the ramp lives in; no last write means the zero time. */
  datatype Ramp = Ramp(lastWrite: Option<int>, payloadLimit: uint16) {
    predicate Valid() {
      lastWrite.Some? ==> SMALLEST_LIMIT <= payloadLimit <= MAX_PAYLOAD_LENGTH
    }
  }

  const FRESH := Ramp(None, 0)

  predicate InitialPadding(p: uint16) {
    INITIAL_PADDING_MIN <= p < INITIAL_PADDING_MIN + INITIAL_PADDING_SPAN
  }

  /** uint16 subtraction, wrapping. */
  function Minus16(a: uint16, b: uint16): uint16 {
    (a - b) as int % 0x1_0000
  }

  function CurrentLimit(r: Ramp, initialPadding: uint16, now: int): uint16 {
    if r.lastWrite.None? then Minus16(FRAME_SIZE - 55, initialPadding)
    else if now - r.lastWrite.value > IDLE then FRAME_SIZE - 39
    else r.payloadLimit
  }

  function Advance(limit: uint16): uint16 {
    if limit <= MAX_PAYLOAD_LENGTH - 1 then
      var next := limit as int + FRAME_SIZE - 39;
      if next > MAX_PAYLOAD_LENGTH then MAX_PAYLOAD_LENGTH else next
    else MAX_PAYLOAD_LENGTH
  }

  function NextRamp(r: Ramp, initialPadding: uint16, now: int): Ramp {
    Ramp(Some(now), Advance(CurrentLimit(r, initialPadding, now)))
  }

  /** The caller's guard on the limit. */
  function Guarded(limit: uint16): (n: nat)
    ensures 0 < n <= MAX_PAYLOAD_LENGTH
  {
    if limit <= 0 || limit > MAX_PAYLOAD_LENGTH then MAX_PAYLOAD_LENGTH else limit
  }

  /** In a ramp reached from the start no limit wraps, and the guard changes none. */
  lemma LimitInRange(r: Ramp, initialPadding: uint16, now: int)
    requires r.Valid() && InitialPadding(initialPadding)
    ensures var limit := CurrentLimit(r, initialPadding, now);
      SMALLEST_LIMIT <= limit <= MAX_PAYLOAD_LENGTH && Guarded(limit) == limit
    ensures NextRamp(r, initialPadding, now).Valid()
    ensures r.lastWrite.None? ==> CurrentLimit(r, initialPadding, now) == FRAME_SIZE - 55 - initialPadding
  {
  }

  /** The ramp after frames written at the given times. */
  function RampAfter(initialPadding: uint16, times: seq<int>): Ramp {
    if times == [] then FRESH
    else NextRamp(RampAfter(initialPadding, times[..|times| - 1]), initialPadding, times[|times| - 1])
  }

  /** The limit of the i-th frame of a run. */
  function LimitAt(initialPadding: uint16, times: seq<int>, i: nat): uint16
    requires i < |times|
  {
    CurrentLimit(RampAfter(initialPadding, times[..i]), initialPadding, times[i])
  }

  /** Index of the first frame of the burst frame i belongs to: the start, or the last frame after an idle gap. */
  function BurstStart(times: seq<int>, i: nat): (s: nat)
    requires i < |times|
    ensures s <= i
    ensures s == 0 || times[s] - times[s - 1] > IDLE
    ensures forall j :: s < j <= i ==> times[j] - times[j - 1] <= IDLE
  {
    if i == 0 || times[i] - times[i - 1] > IDLE then i else BurstStart(times, i - 1)
  }

  function BurstBase(initialPadding: uint16, start: nat): int {
    if start == 0 then FRAME_SIZE - 55 - initialPadding else FRAME_SIZE - 39
  }

  lemma RampAfterStep(initialPadding: uint16, times: seq<int>, i: nat)
    requires i < |times|
    ensures RampAfter(initialPadding, times[..i + 1]) == Ramp(Some(times[i]), Advance(LimitAt(initialPadding, times, i)))
  {
    assert times[..i + 1][..i] == times[..i];
  }

  /** Closed form for every run and every clock: frame k of a burst may carry min(base + 1421*k, 16383) bytes. */
  lemma {:induction false} LimitClosedForm(initialPadding: uint16, times: seq<int>, i: nat)
    requires InitialPadding(initialPadding) && i < |times|
    ensures var s := BurstStart(times, i);
      LimitAt(initialPadding, times, i) == Min(BurstBase(initialPadding, s) + STEP * (i - s), MAX_PAYLOAD_LENGTH)
    decreases i
  {
    hide LimitAt, Advance;
    LimitStep(initialPadding, times, i);
    if i > 0 {
      LimitClosedForm(initialPadding, times, i - 1);
      var s := BurstStart(times, i - 1);
      AdvanceStep(BurstBase(initialPadding, s), i - 1 - s);
    }
  }

  /**
   * In numbers: in a burst that begins with the first frame, or with one after a gap of more than 30 s, and has had no
   * such gap since, the limit is 1405 less the initial padding, or 1421, plus 1421 a frame, up to 16383.
   */
  lemma LimitInNumbers(initialPadding: uint16, times: seq<int>, s: nat, i: nat)
    requires InitialPadding(initialPadding) && s <= i < |times|
    requires s == 0 || times[s] - times[s - 1] > 30_000_000_000
    requires forall j :: s < j <= i ==> times[j] - times[j - 1] <= 30_000_000_000
    ensures LimitAt(initialPadding, times, i)
      == Min((if s == 0 then 1405 - initialPadding else 1421) + 1421 * (i - s), 16383)
  {
    hide LimitAt;
    LimitClosedForm(initialPadding, times, i);
    BurstStartIs(times, s, i);
  }

  lemma {:induction false} BurstStartIs(times: seq<int>, s: nat, i: nat)
    requires s <= i < |times|
    requires s == 0 || times[s] - times[s - 1] > 30_000_000_000
    requires forall j :: s < j <= i ==> times[j] - times[j - 1] <= 30_000_000_000
    ensures BurstStart(times, i) == s
    decreases i
  {
    if s < i {
      BurstStartIs(times, s, i - 1);
    }
  }

  /** One frame to the next: the base again after an idle gap, else one step up. */
  lemma LimitStep(initialPadding: uint16, times: seq<int>, i: nat)
    requires InitialPadding(initialPadding) && i < |times|
    ensures LimitAt(initialPadding, times, i)
      == if i == 0 then BurstBase(initialPadding, 0)
         else if times[i] - times[i - 1] > IDLE then BurstBase(initialPadding, i)
         else Advance(LimitAt(initialPadding, times, i - 1))
  {
    hide RampAfter, Advance;
    if i > 0 {
      RampAfterStep(initialPadding, times, i - 1);
    } else {
      RampAtStart(initialPadding, times);
    }
  }

  lemma AdvanceStep(base: int, k: nat)
    requires SMALLEST_LIMIT <= base
    ensures Advance(Min(base + STEP * k, MAX_PAYLOAD_LENGTH)) == Min(base + STEP * (k + 1), MAX_PAYLOAD_LENGTH)
  {
  }

  lemma RampAtStart(initialPadding: uint16, times: seq<int>)
    ensures RampAfter(initialPadding, times[..0]) == FRESH
  {
  }

  /** From whatever base a burst starts, its twelfth frame is the first at the maximum. */
  lemma TwelfthFrameSaturates(initialPadding: uint16, times: seq<int>, i: nat)
    requires InitialPadding(initialPadding) && i < |times|
    ensures LimitAt(initialPadding, times, i) == MAX_PAYLOAD_LENGTH <==> i - BurstStart(times, i) >= 11
  {
    LimitClosedForm(initialPadding, times, i);
  }

  /** How Write cuts b: frame i is cut at the limit in force at clock(i). */
  function Pieces(b: seq<byte>, r: Ramp, initialPadding: uint16, clock: nat -> int, i: nat): (seq<Chunk>, Ramp)
    decreases |b|
  {
    if b == [] then ([], r)
    else
      var end := Min(Guarded(CurrentLimit(r, initialPadding, clock(i))), |b|);
      var (rest, r') := Pieces(b[end..], NextRamp(r, initialPadding, clock(i)), initialPadding, clock, i + 1);
      ([Data(b[..end])] + rest, r')
  }

  /** Cutting loses nothing, makes no empty or oversized frame, and keeps the ramp reachable. */
  lemma {:induction false} PiecesConserve(b: seq<byte>, r: Ramp, initialPadding: uint16, clock: nat -> int, i: nat)
    requires r.Valid() && InitialPadding(initialPadding)
    ensures var (cs, r') := Pieces(b, r, initialPadding, clock, i);
      && Flatten(cs) == Items(b)
      && r'.Valid()
      && forall c <- cs :: c.Data? && 0 < |c.bytes| <= MAX_PAYLOAD_LENGTH
    decreases |b|
  {
    hide CurrentLimit, NextRamp, Guarded;
    if b != [] {
      LimitInRange(r, initialPadding, clock(i));
      var end := Min(Guarded(CurrentLimit(r, initialPadding, clock(i))), |b|);
      PiecesConserve(b[end..], NextRamp(r, initialPadding, clock(i)), initialPadding, clock, i + 1);
      ItemsAppend(b[..end], b[end..]);
      assert b[..end] + b[end..] == b;
      var rest := Pieces(b[end..], NextRamp(r, initialPadding, clock(i)), initialPadding, clock, i + 1).0;
      assert ([Data(b[..end])] + rest)[1..] == rest;
    }
  }

  /** n clock readings from the i-th on. */
  function Readings(clock: nat -> int, i: nat, n: nat): (times: seq<int>)
    ensures |times| == n
  {
    seq(n, j requires 0 <= j < n => clock(i + j))
  }

  /**
   * After any run, every frame of the next Write is within the limit of its place in the longer run, and all but the
   * last are exactly at it; and the ramp is then that of the longer run.
   */
  lemma {:induction false} PiecesFollowLimits(b: seq<byte>, initialPadding: uint16, times: seq<int>, clock: nat -> int, i: nat)
    requires InitialPadding(initialPadding) && RampAfter(initialPadding, times).Valid()
    ensures var (cs, r) := Pieces(b, RampAfter(initialPadding, times), initialPadding, clock, i);
      var longer := times + Readings(clock, i, |cs|);
      && r == RampAfter(initialPadding, longer)
      && forall j :: 0 <= j < |cs| ==>
           && cs[j].Data?
           && |cs[j].bytes| <= LimitAt(initialPadding, longer, |times| + j)
           && (j < |cs| - 1 ==> |cs[j].bytes| == LimitAt(initialPadding, longer, |times| + j))
    decreases |b|
  {
    hide CurrentLimit, NextRamp, Guarded, Pieces, RampAfter;
    var r := RampAfter(initialPadding, times);
    PiecesUnfold(b, r, initialPadding, clock, i);
    if b == [] {
      assert times + Readings(clock, i, 0) == times;
    } else {
      LimitInRange(r, initialPadding, clock(i));
      var next := times + [clock(i)];
      NextRun(initialPadding, times, clock(i));
      var limit := CurrentLimit(r, initialPadding, clock(i));
      var end := Min(Guarded(limit), |b|);
      PiecesFollowLimits(b[end..], initialPadding, next, clock, i + 1);
      PiecesUnfold(b[end..], RampAfter(initialPadding, next), initialPadding, clock, i + 1);
      var rest := Pieces(b[end..], RampAfter(initialPadding, next), initialPadding, clock, i + 1).0;
      var longer := times + Readings(clock, i, 1 + |rest|);
      assert longer == next + Readings(clock, i + 1, |rest|);
      assert longer[..|times|] == times && longer[|times|] == clock(i);
      var cs := [Data(b[..end])] + rest;
      forall j | 0 <= j < |cs|
        ensures |cs[j].bytes| <= LimitAt(initialPadding, longer, |times| + j)
        ensures j < |cs| - 1 ==> |cs[j].bytes| == LimitAt(initialPadding, longer, |times| + j)
      {
        if j == 0 {
          assert rest != [] ==> b[end..] != [];
        } else {
          assert cs[j] == rest[j - 1] && |times| + j == |next| + (j - 1);
        }
      }
    }
  }

  lemma NextRun(initialPadding: uint16, times: seq<int>, now: int)
    ensures RampAfter(initialPadding, times + [now]) == NextRamp(RampAfter(initialPadding, times), initialPadding, now)
  {
    assert (times + [now])[..|times|] == times;
  }

  /** Anything no longer than the smallest limit travels in one frame, whatever the ramp. */
  lemma ShortWriteIsOneFrame(b: seq<byte>, r: Ramp, initialPadding: uint16, clock: nat -> int, i: nat)
    requires r.Valid() && InitialPadding(initialPadding)
    requires 0 < |b| <= SMALLEST_LIMIT
    ensures Pieces(b, r, initialPadding, clock, i) == ([Data(b)], NextRamp(r, initialPadding, clock(i)))
  {
    hide CurrentLimit, NextRamp, Pieces;
    LimitInRange(r, initialPadding, clock(i));
    PiecesUnfold(b, r, initialPadding, clock, i);
    assert b[..|b|] == b && b[|b|..] == [];
    PiecesUnfold([], NextRamp(r, initialPadding, clock(i)), initialPadding, clock, i + 1);
    assert [Data(b)] + [] == [Data(b)];
  }

  lemma PiecesUnfold(b: seq<byte>, r: Ramp, initialPadding: uint16, clock: nat -> int, i: nat)
    ensures Pieces(b, r, initialPadding, clock, i)
      == if b == [] then ([], r)
         else
           var end := Min(Guarded(CurrentLimit(r, initialPadding, clock(i))), |b|);
           var (rest, r') := Pieces(b[end..], NextRamp(r, initialPadding, clock(i)), initialPadding, clock, i + 1);
           ([Data(b[..end])] + rest, r')
  {
  }
}
