/** Progress of a chunked prefill: the block-aligned split with and without the align floor, and
    the cap put on a prefill that would share a step with a decoding peer. */
module AlignedSchedule {
  import opened Arith
  import opened Wrappers

  datatype Config = Config(
    blockSize: nat, hashBlockSize: nat, maxScheduledTokens: nat, longPrefillThreshold: nat,
    useEagle: bool, partialCacheHit: bool)
  {
    predicate Valid() {
      blockSize > 0 && hashBlockSize > 0
    }
  }

  datatype Request = Request(id: nat, computed: nat, numPrompt: nat, numTokens: nat, sharedPrefix: nat)

  // The split.

  function PrefillEnd(r: Request): int {
    Max(r.numPrompt, r.numTokens - 1)
  }

  function MaxPrefillTokens(c: Config): nat {
    if c.longPrefillThreshold > 0 then Min(c.maxScheduledTokens, c.longPrefillThreshold) else c.maxScheduledTokens
  }

  /** The last block boundary at or before `x`. */
  function Boundary(b: nat, x: nat): nat
    requires b > 0
  {
    x - x % b
  }

  /** The first block boundary after `x`. */
  function NextBoundary(b: nat, x: nat): nat
    requires b > 0
  {
    Boundary(b, x) + b
  }

  /** The program computes both by dividing and multiplying. */
  lemma {:induction false} BoundaryIsProduct(b: nat, x: nat)
    requires b > 0
    ensures Boundary(b, x) == x / b * b && NextBoundary(b, x) == (x / b + 1) * b
  {
    assert x == b * (x / b) + x % b;
    assert (x / b + 1) * b == x / b * b + b;
  }

  function LastCachePosition(c: Config, r: Request): int
    requires c.Valid()
  {
    var p := r.numTokens - r.numTokens % c.blockSize;
    if c.useEagle then Max(p - c.blockSize, 0) else p
  }

  function TailBoundary(c: Config, r: Request): nat
    requires c.Valid()
  {
    if c.partialCacheHit then Boundary(c.hashBlockSize, r.numPrompt) else 0
  }

  /** The tail boundary when it is a stop at all. */
  function TailStop(c: Config, r: Request): int
    requires c.Valid()
  {
    if LastCachePosition(c, r) < TailBoundary(c, r) < r.numPrompt then TailBoundary(c, r) else 0
  }

  function PrefixStop(c: Config, r: Request, start: nat, end: int): int
    requires c.Valid()
  {
    if start < r.sharedPrefix < end then start + Boundary(c.blockSize, r.sharedPrefix - start) else 0
  }

  function Stops(c: Config, r: Request, start: nat, end: int): seq<int>
    requires c.Valid()
  {
    [if start % c.blockSize != 0 then NextBoundary(c.blockSize, start) else 0,
     LastCachePosition(c, r), TailStop(c, r), PrefixStop(c, r, start, end)]
  }

  /** The least stop strictly between `start` and `end`, or `end`. */
  function FirstStop(stops: seq<int>, start: int, end: int): (e: int)
    ensures e == end || (e in stops && start < e < end)
    ensures forall s | s in stops && start < s < end :: e <= s
  {
    if stops == [] then end
    else
      var rest := FirstStop(stops[1..], start, end);
      assert forall s | s in stops :: s == stops[0] || s in stops[1..];
      if start < stops[0] < end && stops[0] < rest then stops[0] else rest
  }

  /** The end of the chunk before the mandatory stops. */
  function AlignedEnd(c: Config, r: Request, start: nat, numNew: nat, floor: bool): (end: nat)
    requires c.Valid()
  {
    var end := start + numNew;
    var aligned := Boundary(c.blockSize, end);
    if end < PrefillEnd(r) && (aligned > start || (c.blockSize <= MaxPrefillTokens(c) && !floor)) then aligned
    else end
  }

  /** The tokens the split lets through, upstream's when `floor` is off. */
  function Split(c: Config, r: Request, start: nat, numNew: nat, floor: bool): nat
    requires c.Valid()
  {
    if start >= PrefillEnd(r) then numNew
    else
      var end := AlignedEnd(c, r, start, numNew, floor);
      Max(FirstStop(Stops(c, r, start, end), start, end) - start, 0)
  }

  /** The split as the scheduler runs it. */
  method MambaBlockAlignedSplit(c: Config, r: Request, numNew: nat, localComputed: nat, externalComputed: nat,
                                floor: bool)
    returns (tokens: nat)
    requires c.Valid()
    ensures tokens == Split(c, r, r.computed + localComputed + externalComputed, numNew, floor)
  {
    hide Stops, Boundary, FirstStop, MaxPrefillTokens;
    var start := r.computed + localComputed + externalComputed;
    var prefillEnd := Max(r.numPrompt, r.numTokens - 1);
    if start >= prefillEnd {
      return numNew;
    }
    var end := start + numNew;
    if end < prefillEnd {
      var alignedEnd := end / c.blockSize * c.blockSize;
      BoundaryIsProduct(c.blockSize, end);
      if alignedEnd > start || (c.blockSize <= MaxPrefillTokens(c) && !floor) {
        end := alignedEnd;
      }
    }
    end := FirstStop(Stops(c, r, start, end), start, end);
    return Max(end - start, 0);
  }

  /** Behind the prefill nothing is cut. */
  lemma {:induction false} DecodeIsUncut(c: Config, r: Request, start: nat, numNew: nat, floor: bool)
    requires c.Valid() && start >= r.numPrompt && start >= r.numTokens - 1
    ensures Split(c, r, start, numNew, floor) == numNew
  {
  }

  // Progress.

  lemma {:induction false} BoundaryBounds(b: nat, x: nat)
    requires b > 0
    ensures Boundary(b, x) <= x < Boundary(b, x) + b && Boundary(b, x) % b == 0
    ensures NextBoundary(b, x) == Boundary(b, x) + b
  {
    assert x == b * (x / b) + x % b;
    DivUnique(x - x % b, b, x / b, 0);
  }

  /** A boundary lies in `(start, end]` exactly when the last one at or before `end` is past
      `start`. */
  lemma {:induction false} BoundaryInRange(b: nat, start: nat, end: nat, x: nat)
    requires b > 0 && x % b == 0 && start < x <= end
    ensures Boundary(b, end) > start
  {
    BoundaryBounds(b, end);
    assert x == b * (x / b);
    if x / b > end / b { MulMonotone(end / b + 1, x / b, b); }
    MulMonotone(x / b, end / b, b);
  }

  /** With the floor on, every non-empty request for tokens gets some, and never more than it
      asked for. */
  lemma {:induction false} FloorAlwaysAdvances(c: Config, r: Request, start: nat, numNew: nat)
    requires c.Valid() && numNew >= 1
    ensures 1 <= Split(c, r, start, numNew, true) <= numNew
  {
    BoundaryBounds(c.blockSize, start + numNew);
    hide Stops, Boundary;
  }

  /** Block-sized chunks are required but the chunk reaches no boundary. */
  ghost predicate Stalls(c: Config, r: Request, start: nat, numNew: nat)
    requires c.Valid()
  {
    && start + numNew < PrefillEnd(r)
    && c.blockSize <= MaxPrefillTokens(c)
    && forall x: nat | start < x <= start + numNew :: x % c.blockSize != 0
  }

  lemma {:induction false} StallsIffNoBoundary(c: Config, r: Request, start: nat, numNew: nat)
    requires c.Valid() && numNew >= 1
    ensures Stalls(c, r, start, numNew) <==>
            && start + numNew < PrefillEnd(r) && c.blockSize <= MaxPrefillTokens(c)
            && Boundary(c.blockSize, start + numNew) <= start
  {
    var b, end := c.blockSize, start + numNew;
    BoundaryBounds(b, end);
    if Boundary(b, end) <= start {
      forall x: nat | start < x <= end ensures x % b != 0 {
        if x % b == 0 { BoundaryInRange(b, start, end, x); }
      }
    }
  }

  /** Upstream hands out nothing exactly when it stalls, and the floor changes exactly those
      steps. */
  lemma {:induction false} FloorChangesOnlyStalls(c: Config, r: Request, start: nat, numNew: nat)
    requires c.Valid() && numNew >= 1
    ensures Split(c, r, start, numNew, false) == 0 <==> Stalls(c, r, start, numNew)
    ensures Split(c, r, start, numNew, false) == Split(c, r, start, numNew, true) <==> !Stalls(c, r, start, numNew)
  {
    StallsIffNoBoundary(c, r, start, numNew);
    FloorAlwaysAdvances(c, r, start, numNew);
    BoundaryBounds(c.blockSize, start + numNew);
    hide Stalls, Stops, Boundary;
  }

  /** With blocks larger than any prefill chunk the floor is a no-op. */
  lemma {:induction false} FloorIsNoOpBelowBlock(c: Config, r: Request, start: nat, numNew: nat)
    requires c.Valid() && c.blockSize > MaxPrefillTokens(c)
    ensures Split(c, r, start, numNew, true) == Split(c, r, start, numNew, false)
  {
    hide Stops, Boundary;
  }

  /** The stall is real: a 512-token admission into 3584-token blocks never moves upstream and
      moves by 512 with the floor. */
  lemma {:induction false} SubBlockChunkStalls()
    ensures var c := Config(3584, 64, 8192, 3584, false, false);
            var r := Request(0, 0, 100000, 100000, 0);
            Split(c, r, 0, 512, false) == 0 && Split(c, r, 0, 512, true) == 512
  {
    var c := Config(3584, 64, 8192, 3584, false, false);
    var r := Request(0, 0, 100000, 100000, 0);
    assert Boundary(3584, 512) == 0;
    assert LastCachePosition(c, r) == 100000 - 100000 % 3584;
    assert 100000 % 3584 == 3232;
  }

  // Where chunks end.

  /** A chunk of at most a block that starts inside the prefill never crosses a block boundary:
      it ends on the next one or before it. */
  lemma {:induction false} ChunkStaysInBlock(c: Config, r: Request, start: nat, numNew: nat)
    requires c.Valid() && 1 <= numNew <= c.blockSize && (start < r.numPrompt || start < r.numTokens - 1)
    ensures start < start + Split(c, r, start, numNew, true) <= NextBoundary(c.blockSize, start)
  {
    FloorAlwaysAdvances(c, r, start, numNew);
    BoundaryBounds(c.blockSize, start);
    BoundaryBounds(c.blockSize, start + numNew);
    var end := AlignedEnd(c, r, start, numNew, true);
    if start % c.blockSize != 0 {
      hide Boundary, AlignedEnd, LastCachePosition, TailStop, PrefixStop, NextBoundary;
      assert Stops(c, r, start, end)[0] == NextBoundary(c.blockSize, start);
      assert NextBoundary(c.blockSize, start) in Stops(c, r, start, end);
    } else {
      Aligned(c.blockSize, start);
    }
  }

  lemma {:induction false} Aligned(b: nat, x: nat)
    requires b > 0 && x % b == 0
    ensures Boundary(b, x) == x && NextBoundary(b, x) == x + b
  {
    BoundaryBounds(b, x);
    assert x == b * (x / b);
  }

  /** No boundary lies strictly between `x` and the next one. */
  lemma {:induction false} NoBoundaryBetween(b: nat, x: nat, y: nat)
    requires b > 0 && y % b == 0 && x < y
    ensures NextBoundary(b, x) <= y
  {
    BoundaryInRange(b, x, y, y);
    BoundaryBounds(b, x);
    Aligned(b, y);
    if x / b + 1 > y / b { MulMonotone(y / b, x / b, b); }
    MulMonotone(x / b + 1, y / b, b);
  }

  lemma {:induction false} SameBlock(b: nat, x: nat, y: nat)
    requires b > 0 && x <= y < NextBoundary(b, x)
    ensures NextBoundary(b, y) == NextBoundary(b, x)
  {
    BoundaryBounds(b, x);
    DivUnique(y, b, x / b, y - Boundary(b, x));
  }

  /** The last block boundary of the request, one block earlier under eagle. */
  predicate LastCacheable(c: Config, r: Request, x: nat)
    requires c.Valid()
  {
    x % c.blockSize == 0 && x <= r.numTokens - (if c.useEagle then c.blockSize else 0) < x + c.blockSize
  }

  /** The last hash boundary of the prompt, when partial hits are cached and it lies behind the
      last cache position. */
  predicate LastHashed(c: Config, r: Request, x: nat)
    requires c.Valid()
  {
    c.partialCacheHit && x % c.hashBlockSize == 0 && LastCachePosition(c, r) < x < r.numPrompt < x + c.hashBlockSize
  }

  /** The next block boundary of an unaligned start. */
  predicate Realigns(c: Config, start: nat, x: nat)
    requires c.Valid()
  {
    start % c.blockSize != 0 && x % c.blockSize == 0 && start < x < start + c.blockSize
  }

  /** The last whole block, counted from the start, of a prefix the chunk would run past. */
  predicate EndsSharedPrefix(c: Config, r: Request, start: nat, end: int, x: nat)
    requires c.Valid()
  {
    start < x <= r.sharedPrefix < x + c.blockSize && (x - start) % c.blockSize == 0 && r.sharedPrefix < end
  }

  /** No chunk of any size, patched or not, runs through a place where state must be cached. */
  lemma {:induction false} MandatoryStopsHold(c: Config, r: Request, start: nat, numNew: nat, floor: bool, x: nat)
    requires c.Valid() && (start < r.numPrompt || start < r.numTokens - 1) && start < x
    requires LastCacheable(c, r, x) || LastHashed(c, r, x) || Realigns(c, start, x)
             || EndsSharedPrefix(c, r, start, AlignedEnd(c, r, start, numNew, floor), x)
    ensures start + Split(c, r, start, numNew, floor) <= x
  {
    var end := AlignedEnd(c, r, start, numNew, floor);
    var stops := Stops(c, r, start, end);
    if LastCacheable(c, r, x) { LastCacheableIs(c, r, x); }
    if LastHashed(c, r, x) { LastHashedIs(c, r, x); }
    if Realigns(c, start, x) { RealignsIs(c, start, x); }
    if EndsSharedPrefix(c, r, start, end, x) { EndsSharedPrefixIs(c, r, start, end, x); }
    hide LastCacheable, LastHashed, Realigns, EndsSharedPrefix;
    hide AlignedEnd, LastCachePosition, TailStop, PrefixStop, NextBoundary;
    assert stops[0] in stops && stops[1] in stops && stops[2] in stops && stops[3] in stops;
    assert x in stops;
  }

  /** The end of the chunk before those stops, in the settings' own numbers: a chunk that does not
      reach the end of the prefill ends on the last block boundary it passes; if it passes none, it
      is upstream's stall when blocks are no larger than a prefill step, and otherwise whole. */
  lemma {:induction false} AlignedEndMeans(c: Config, r: Request, start: nat, numNew: nat, floor: bool)
    requires c.Valid() && numNew >= 1
    ensures var end, e, b := start + numNew, AlignedEnd(c, r, start, numNew, floor), c.blockSize;
            var inside := end < r.numPrompt || end < r.numTokens - 1;
            var step := if 0 < c.longPrefillThreshold < c.maxScheduledTokens then c.longPrefillThreshold
                        else c.maxScheduledTokens;
            if inside && (exists x: nat :: start < x <= end && x % b == 0) then
              e % b == 0 && start < e <= end < e + b
            else if inside && !floor && b <= step then e <= start
            else e == end
  {
    var end, b := start + numNew, c.blockSize;
    BoundaryBounds(b, end);
    if x: nat :| start < x <= end && x % b == 0 {
      BoundaryInRange(b, start, end, x);
    }
    hide Boundary;
  }

  /** And it is cut short of that only at such a place. */
  lemma {:induction false} CutOnlyAtStops(c: Config, r: Request, start: nat, numNew: nat, floor: bool)
    requires c.Valid() && start + Split(c, r, start, numNew, floor) < AlignedEnd(c, r, start, numNew, floor)
    ensures start < r.numPrompt || start < r.numTokens - 1
    ensures var x, end := start + Split(c, r, start, numNew, floor), AlignedEnd(c, r, start, numNew, floor);
            start < x && (LastCacheable(c, r, x) || LastHashed(c, r, x) || Realigns(c, start, x)
                          || EndsSharedPrefix(c, r, start, end, x))
  {
    var end := AlignedEnd(c, r, start, numNew, floor);
    AlignedEndAtMost(c, r, start, numNew, floor);
    hide AlignedEnd;
    var stops := Stops(c, r, start, end);
    var x := FirstStop(stops, start, end);
    assert forall s | s in stops :: s == stops[0] || s == stops[1] || s == stops[2] || s == stops[3];
    assert x in stops && start < x < end;
    hide FirstStop, LastCacheable, LastHashed, Realigns, EndsSharedPrefix, Boundary;
    if x == stops[0] {
      RealignsThere(c, start);
    } else if x == stops[1] {
      CacheableThere(c, r);
    } else if x == stops[2] {
      HashedThere(c, r);
    } else {
      PrefixEndsThere(c, r, start, end);
    }
  }

  lemma {:induction false} AlignedEndAtMost(c: Config, r: Request, start: nat, numNew: nat, floor: bool)
    requires c.Valid()
    ensures AlignedEnd(c, r, start, numNew, floor) <= start + numNew
  {
    BoundaryBounds(c.blockSize, start + numNew);
  }

  lemma {:induction false} RealignsThere(c: Config, start: nat)
    requires c.Valid() && start % c.blockSize != 0
    ensures Realigns(c, start, NextBoundary(c.blockSize, start))
  {
    BoundaryBounds(c.blockSize, start);
    NextAligned(c.blockSize, Boundary(c.blockSize, start));
  }

  lemma {:induction false} CacheableThere(c: Config, r: Request)
    requires c.Valid() && LastCachePosition(c, r) > 0
    ensures LastCacheable(c, r, LastCachePosition(c, r))
  {
    BoundaryBounds(c.blockSize, r.numTokens);
    CachePositionIsBoundary(c, r);
  }

  lemma {:induction false} HashedThere(c: Config, r: Request)
    requires c.Valid() && TailStop(c, r) > 0
    ensures LastHashed(c, r, TailStop(c, r))
  {
    BoundaryBounds(c.hashBlockSize, r.numPrompt);
    hide LastCachePosition, Boundary;
  }

  lemma {:induction false} PrefixEndsThere(c: Config, r: Request, start: nat, end: int)
    requires c.Valid() && PrefixStop(c, r, start, end) > start
    ensures EndsSharedPrefix(c, r, start, end, PrefixStop(c, r, start, end))
  {
    if start < r.sharedPrefix { BoundaryBounds(c.blockSize, r.sharedPrefix - start); }
    hide Boundary;
  }

  lemma {:induction false} LastCacheableIs(c: Config, r: Request, x: nat)
    requires c.Valid() && LastCacheable(c, r, x)
    ensures LastCachePosition(c, r) == x
  {
    if c.useEagle { NextAligned(c.blockSize, x); }
    LastBoundaryIs(c.blockSize, r.numTokens, if c.useEagle then x + c.blockSize else x);
  }

  lemma {:induction false} LastHashedIs(c: Config, r: Request, x: nat)
    requires c.Valid() && LastHashed(c, r, x)
    ensures TailStop(c, r) == x
  {
    hide LastCachePosition;
    LastBoundaryIs(c.hashBlockSize, r.numPrompt, x);
  }

  lemma {:induction false} EndsSharedPrefixIs(c: Config, r: Request, start: nat, end: int, x: nat)
    requires c.Valid() && EndsSharedPrefix(c, r, start, end, x)
    ensures PrefixStop(c, r, start, end) == x
  {
    LastBoundaryIs(c.blockSize, r.sharedPrefix - start, x - start);
  }

  lemma {:induction false} RealignsIs(c: Config, start: nat, x: nat)
    requires c.Valid() && Realigns(c, start, x)
    ensures NextBoundary(c.blockSize, start) == x
  {
    var b := c.blockSize;
    NoBoundaryBetween(b, start, x);
    BoundaryBounds(b, start);
    NextAligned(b, Boundary(b, start));
    hide Boundary, NextBoundary;
    if NextBoundary(b, start) < x {
      NoBoundaryBetween(b, NextBoundary(b, start), x);
      Aligned(b, NextBoundary(b, start));
    }
  }

  lemma {:induction false} LastBoundaryIs(b: nat, n: nat, x: nat)
    requires b > 0 && x <= n < x + b && x % b == 0
    ensures n - n % b == x
  {
    assert x == b * (x / b);
    DivUnique(n, b, x / b, n - x);
  }

  // A request under a cap. Its tokens are the prompt and, when it resumes, what it had generated.

  /** The first place a request must stop at: the next block boundary, the tail boundary or the
      end of its tokens. */
  function Target(c: Config, r: Request, start: nat): (t: nat)
    requires c.Valid() && start < r.numTokens
    ensures start < t <= r.numTokens
  {
    BoundaryBounds(c.blockSize, start);
    var t := Min(NextBoundary(c.blockSize, start), r.numTokens);
    if start < TailStop(c, r) < t then TailStop(c, r) else t
  }

  lemma {:induction false} CachePositionIsBoundary(c: Config, r: Request)
    requires c.Valid()
    ensures LastCachePosition(c, r) >= 0 && LastCachePosition(c, r) % c.blockSize == 0
  {
    var b := c.blockSize;
    var p := Boundary(b, r.numTokens);
    BoundaryBounds(b, r.numTokens);
    if p >= b {
      PreviousAligned(b, p);
    } else {
      DivUnique(0, b, 0, 0);
    }
  }

  lemma {:induction false} PreviousAligned(b: nat, s: nat)
    requires 0 < b <= s && s % b == 0
    ensures (s - b) % b == 0
  {
    assert s == b * (s / b);
    DivUnique(s - b, b, s / b - 1, 0);
  }

  lemma {:induction false} PrefixStopsNothing(c: Config, r: Request, start: nat, end: int)
    requires c.Valid() && end <= start + c.blockSize
    ensures PrefixStop(c, r, start, end) <= start
  {
    if start < r.sharedPrefix < end {
      DivUnique(r.sharedPrefix - start, c.blockSize, 0, r.sharedPrefix - start);
    }
  }

  /** A range of at most a block holds at most the next boundary. */
  lemma {:induction false} OneBoundary(b: nat, start: nat, n: nat)
    requires 0 < n <= b
    ensures Boundary(b, start + n) > start ==> Boundary(b, start + n) == NextBoundary(b, start)
    ensures Boundary(b, start + n) <= start ==> start + n < NextBoundary(b, start)
  {
    BoundaryBounds(b, start);
    BoundaryBounds(b, start + n);
    var last, next := Boundary(b, start + n), NextBoundary(b, start);
    NextAligned(b, Boundary(b, start));
    hide Boundary, NextBoundary;
    if last > start {
      NoBoundaryBetween(b, start, last);
      if next < last {
        NoBoundaryBetween(b, next, last);
        Aligned(b, next);
      }
    } else if next <= start + n {
      BoundaryInRange(b, start, start + n, next);
    }
  }

  lemma {:induction false} NextAligned(b: nat, s: nat)
    requires b > 0 && s % b == 0
    ensures (s + b) % b == 0
  {
    assert s == b * (s / b);
    DivUnique(s + b, b, s / b + 1, 0);
  }

  /** Before the mandatory stops the chunk is already cut at a boundary it would cross, unless
      it reaches the end of the prefill. */
  lemma {:induction false} AlignedEndIs(c: Config, r: Request, start: nat, n: nat)
    requires c.Valid() && r.numPrompt <= r.numTokens && start < r.numTokens
    requires 1 <= n <= c.blockSize && start + n <= r.numTokens
    ensures var end := AlignedEnd(c, r, start, n, true);
            && start < end <= start + n
            && (end == start + n || (end == NextBoundary(c.blockSize, start) && end < start + n))
            && (end <= NextBoundary(c.blockSize, start) || start % c.blockSize != 0)
  {
    BoundaryBounds(c.blockSize, start);
    BoundaryBounds(c.blockSize, start + n);
    OneBoundary(c.blockSize, start, n);
    if start % c.blockSize == 0 { Aligned(c.blockSize, start); }
    hide Boundary, NextBoundary;
  }

  /** Under a cap of at most a block, the split of a chunk stops at the target and nowhere before
      it. */
  lemma {:induction false} ChunkReachesTarget(c: Config, r: Request, start: nat, n: nat)
    requires c.Valid() && r.numPrompt <= r.numTokens && start < r.numTokens
    requires 1 <= n <= c.blockSize && start + n <= r.numTokens
    ensures start + Split(c, r, start, n, true) == Min(start + n, Target(c, r, start))
  {
    if start >= PrefillEnd(r) {
      LastTokenIsTarget(c, r, start);
    } else {
      var end := AlignedEnd(c, r, start, n, true);
      AlignedEndIs(c, r, start, n);
      CachePositionIsBoundary(c, r);
      PrefixStopsNothing(c, r, start, end);
      if start < LastCachePosition(c, r) { NoBoundaryBetween(c.blockSize, start, LastCachePosition(c, r)); }
      StopIsTarget(c, r, start, n, end);
    }
  }

  /** Behind the prefill's end only the last token is left. */
  lemma {:induction false} LastTokenIsTarget(c: Config, r: Request, start: nat)
    requires c.Valid() && r.numPrompt <= r.numTokens && PrefillEnd(r) <= start < r.numTokens
    ensures start + 1 == r.numTokens == Target(c, r, start)
  {
    BoundaryBounds(c.blockSize, start);
    hide TailStop, NextBoundary;
  }

  lemma {:induction false} StopIsTarget(c: Config, r: Request, start: nat, n: nat, end: nat)
    requires c.Valid() && start < PrefillEnd(r) && start < end <= start + n <= r.numTokens
    requires end == AlignedEnd(c, r, start, n, true)
    requires end == start + n || (end == NextBoundary(c.blockSize, start) && end < start + n)
    requires end <= NextBoundary(c.blockSize, start) || start % c.blockSize != 0
    requires PrefixStop(c, r, start, end) <= start
    requires start < LastCachePosition(c, r) ==> NextBoundary(c.blockSize, start) <= LastCachePosition(c, r)
    ensures start + Split(c, r, start, n, true) == Min(start + n, Target(c, r, start))
  {
    hide AlignedEnd, NextBoundary, LastCachePosition, TailStop, PrefixStop;
    var stops := Stops(c, r, start, end);
    assert stops[0] in stops && stops[1] in stops && stops[2] in stops;
    assert forall s | s in stops :: s == stops[0] || s == stops[1] || s == stops[2] || s == stops[3];
  }

  lemma {:induction false} CeilDivStep(x: nat, n: nat)
    requires n > 0
    ensures x == 0 ==> CeilDiv(x, n) == 0
    ensures 0 < x <= n ==> CeilDiv(x, n) == 1
    ensures x > n ==> CeilDiv(x, n) == 1 + CeilDiv(x - n, n)
  {
    if x == 0 {
      DivUnique(n - 1, n, 0, n - 1);
    } else if x <= n {
      DivUnique(x + n - 1, n, 1, x - 1);
    } else {
      var y := x - n + n - 1;
      assert y == n * (y / n) + y % n;
      DivUnique(x + n - 1, n, y / n + 1, y % n);
    }
  }

  /** The steps a request's tokens take from `s` on, every step handing out at most `cap`
      tokens. */
  ghost function Steps(c: Config, r: Request, cap: nat, s: nat): nat
    requires c.Valid() && cap >= 1
    decreases r.numTokens - s
  {
    if s >= r.numTokens then 0
    else
      FloorAlwaysAdvances(c, r, s, Min(cap, r.numTokens - s));
      1 + Steps(c, r, cap, s + Split(c, r, s, Min(cap, r.numTokens - s), true))
  }

  /** The steps from anywhere to the next stop are as few as the cap allows. */
  lemma {:induction false} StepsToTarget(c: Config, r: Request, cap: nat, s: nat)
    requires c.Valid() && 1 <= cap <= c.blockSize && r.numPrompt <= r.numTokens && s < r.numTokens
    ensures Steps(c, r, cap, s) == CeilDiv(Target(c, r, s) - s, cap) + Steps(c, r, cap, Target(c, r, s))
    decreases r.numTokens - s
  {
    hide Split, Target, CeilDiv;
    var n, t := Min(cap, r.numTokens - s), Target(c, r, s);
    ChunkReachesTarget(c, r, s, n);
    CeilDivStep(t - s, cap);
    if s + n < t {
      SameTarget(c, r, s, s + n);
      StepsToTarget(c, r, cap, s + n);
    }
  }

  lemma {:induction false} SameTarget(c: Config, r: Request, s: nat, s2: nat)
    requires c.Valid() && s < r.numTokens && s <= s2 < Target(c, r, s)
    ensures Target(c, r, s2) == Target(c, r, s)
  {
    SameBlock(c.blockSize, s, s2);
    hide NextBoundary, TailStop;
  }

  /** What a tail boundary inside a block costs that block. */
  function SplitCost(b: nat, end: nat, tail: int, cap: nat): int
    requires b <= tail <= end && cap >= 1
  {
    CeilDiv(tail - b, cap) + CeilDiv(end - tail, cap) - CeilDiv(end - b, cap)
  }

  /** The extra steps the tail boundary causes from an aligned position on. */
  function TailCost(c: Config, r: Request, s: nat, cap: nat): int
    requires c.Valid() && cap >= 1
  {
    var t := TailStop(c, r);
    if s < t && t % c.blockSize != 0 then
      BoundaryBounds(c.blockSize, t);
      SplitCost(Boundary(c.blockSize, t), Max(t, Min(NextBoundary(c.blockSize, t), r.numTokens)), t, cap)
    else 0
  }

  lemma {:induction false} CeilDivSplit(x: nat, y: nat, n: nat)
    requires n > 0
    ensures 0 <= CeilDiv(x, n) + CeilDiv(y, n) - CeilDiv(x + y, n) <= 1
    decreases x + y
  {
    hide CeilDiv;
    CeilDivStep(x, n);
    CeilDivStep(y, n);
    CeilDivStep(x + y, n);
    if x > n {
      CeilDivSplit(x - n, y, n);
    } else if y > n {
      CeilDivSplit(x, y - n, n);
    } else if x + y > n {
      CeilDivStep(x + y - n, n);
    }
  }

  /** A tail boundary costs one step or none. */
  lemma {:induction false} TailCostsAtMostOne(c: Config, r: Request, s: nat, cap: nat)
    requires c.Valid() && cap >= 1
    ensures 0 <= TailCost(c, r, s, cap) <= 1
  {
    hide CeilDiv, TailStop, Boundary, NextBoundary;
    var t := TailStop(c, r);
    if s < t && t % c.blockSize != 0 {
      BoundaryBounds(c.blockSize, t);
      var b, e := Boundary(c.blockSize, t), Max(t, Min(NextBoundary(c.blockSize, t), r.numTokens));
      CeilDivSplit(t - b, e - t, cap);
      assert t - b + (e - t) == e - b;
    }
  }

  /** One block of the request. */
  lemma {:induction false} BlockSteps(c: Config, r: Request, cap: nat, s: nat)
    requires c.Valid() && 1 <= cap <= c.blockSize && r.numPrompt <= r.numTokens
    requires s < r.numTokens && s % c.blockSize == 0
    ensures var e := Min(s + c.blockSize, r.numTokens);
            Steps(c, r, cap, s) + TailCost(c, r, e, cap)
            == CeilDiv(e - s, cap) + Steps(c, r, cap, e) + TailCost(c, r, s, cap)
  {
    hide Boundary, NextBoundary, CeilDiv, TailStop, Steps, TailCost, Target;
    var e := Min(s + c.blockSize, r.numTokens);
    BlockTarget(c, r, s);
    StepsToTarget(c, r, cap, s);
    if s < TailStop(c, r) < e {
      StepsToTarget(c, r, cap, TailStop(c, r));
      TailInBlock(c, r, cap, s);
    } else {
      TailOutsideBlock(c, r, cap, s);
    }
  }

  lemma {:induction false} BlockTarget(c: Config, r: Request, s: nat)
    requires c.Valid() && s < r.numTokens && s % c.blockSize == 0
    ensures var e, t := Min(s + c.blockSize, r.numTokens), TailStop(c, r);
            && Target(c, r, s) == (if s < t < e then t else e)
            && (s < t < e ==> Target(c, r, t) == e)
  {
    Aligned(c.blockSize, s);
    hide TailStop, Boundary;
    var t := TailStop(c, r);
    if s < t < s + c.blockSize { SameBlock(c.blockSize, s, t); }
  }

  lemma {:induction false} TailInBlock(c: Config, r: Request, cap: nat, s: nat)
    requires c.Valid() && cap >= 1 && s < r.numTokens && s % c.blockSize == 0
    requires s < TailStop(c, r) < Min(s + c.blockSize, r.numTokens)
    ensures var e, t := Min(s + c.blockSize, r.numTokens), TailStop(c, r);
            && TailCost(c, r, s, cap) == CeilDiv(t - s, cap) + CeilDiv(e - t, cap) - CeilDiv(e - s, cap)
            && TailCost(c, r, e, cap) == 0
  {
    TailBlock(c, r, s, TailStop(c, r));
    hide Boundary, NextBoundary, CeilDiv, TailStop;
  }

  lemma {:induction false} TailOutsideBlock(c: Config, r: Request, cap: nat, s: nat)
    requires c.Valid() && cap >= 1 && r.numPrompt <= r.numTokens && s < r.numTokens && s % c.blockSize == 0
    requires !(s < TailStop(c, r) < Min(s + c.blockSize, r.numTokens))
    ensures TailCost(c, r, Min(s + c.blockSize, r.numTokens), cap) == TailCost(c, r, s, cap)
  {
    TailBelowPrompt(c, r);
    NextAligned(c.blockSize, s);
    hide CeilDiv, TailStop, SplitCost;
  }

  lemma {:induction false} TailBelowPrompt(c: Config, r: Request)
    requires c.Valid() && r.numPrompt <= r.numTokens
    ensures TailStop(c, r) == 0 || TailStop(c, r) < r.numTokens
    ensures TailStop(c, r) >= 0
  {
    hide LastCachePosition, TailBoundary;
  }

  lemma {:induction false} TailBlock(c: Config, r: Request, s: nat, t: nat)
    requires c.Valid() && s % c.blockSize == 0 && s < t < s + c.blockSize
    ensures Boundary(c.blockSize, t) == s && t % c.blockSize != 0 && NextBoundary(c.blockSize, t) == s + c.blockSize
  {
    assert s == c.blockSize * (s / c.blockSize);
    DivUnique(t, c.blockSize, s / c.blockSize, t - s);
  }

  /** `left` tokens block by block: every whole block and the rest in steps of `cap`. */
  function BlocksCost(left: nat, b: nat, cap: nat): nat
    requires b > 0 && cap > 0
  {
    var blocks: nat, perBlock: nat := left / b, CeilDiv(b, cap);
    MulMonotone(0, blocks, perBlock);
    blocks * perBlock + CeilDiv(left % b, cap)
  }

  lemma {:induction false} BlocksCostStep(left: nat, b: nat, cap: nat)
    requires b > 0 && cap > 0
    ensures left < b ==> BlocksCost(left, b, cap) == CeilDiv(left, cap)
    ensures left >= b ==> BlocksCost(left, b, cap) == CeilDiv(b, cap) + BlocksCost(left - b, b, cap)
  {
    hide CeilDiv;
    if left < b {
      DivUnique(left, b, 0, left);
    } else {
      var rest := left - b;
      assert rest == b * (rest / b) + rest % b;
      DivUnique(left, b, rest / b + 1, rest % b);
      assert (rest / b + 1) * CeilDiv(b, cap) == rest / b * CeilDiv(b, cap) + CeilDiv(b, cap);
    }
  }

  /** A request, fresh or resumed, started on a block boundary and handed at most `cap` tokens a
      step, takes `cap`-sized steps block by block, plus the one step a tail boundary may cost. */
  lemma {:induction false} RequestSteps(c: Config, r: Request, cap: nat, s: nat)
    requires c.Valid() && 1 <= cap <= c.blockSize && r.numPrompt <= r.numTokens
    requires s <= r.numTokens && s % c.blockSize == 0
    ensures Steps(c, r, cap, s) == BlocksCost(r.numTokens - s, c.blockSize, cap) + TailCost(c, r, s, cap)
    decreases r.numTokens - s
  {
    hide Steps, TailCost, CeilDiv, BlocksCost;
    var b, left := c.blockSize, r.numTokens - s;
    BlocksCostStep(left, b, cap);
    NothingAfter(c, r, cap);
    CeilDivStep(0, cap);
    if left == 0 {
    } else {
      BlockSteps(c, r, cap, s);
      if left >= b {
        NextAligned(b, s);
        RequestSteps(c, r, cap, s + b);
      }
    }
  }

  /** Spelled out: without a hashed place inside a block still ahead, every whole block takes its
      size over the cap and the rest its own, each rounded up; with one, its block is paid in two
      parts. */
  lemma {:induction false} RequestStepsSpelledOut(c: Config, r: Request, cap: nat, s: nat)
    requires c.Valid() && 1 <= cap <= c.blockSize && r.numPrompt <= r.numTokens
    requires s <= r.numTokens && s % c.blockSize == 0
    ensures var b, left := c.blockSize, r.numTokens - s;
            var plain := left / b * ((b + cap - 1) / cap) + (left % b + cap - 1) / cap;
            && ((forall x: nat | LastHashed(c, r, x) :: x <= s || x % b == 0) ==> Steps(c, r, cap, s) == plain)
            && forall x: nat | LastHashed(c, r, x) && s < x && x % b != 0 ::
                 var from, to := x - x % b, Min(x - x % b + b, r.numTokens);
                 Steps(c, r, cap, s) ==
                 plain + (x - from + cap - 1) / cap + (to - x + cap - 1) / cap - (to - from + cap - 1) / cap
  {
    RequestSteps(c, r, cap, s);
    BlocksCostIs(r.numTokens - s, c.blockSize, cap);
    hide Steps, BlocksCost, LastHashed, TailCost;
    if forall x: nat | LastHashed(c, r, x) :: x <= s || x % c.blockSize == 0 {
      NoTailCost(c, r, cap, s);
    }
    forall x: nat | LastHashed(c, r, x) && s < x && x % c.blockSize != 0
      ensures var from, to := x - x % c.blockSize, Min(x - x % c.blockSize + c.blockSize, r.numTokens);
              TailCost(c, r, s, cap) ==
              (x - from + cap - 1) / cap + (to - x + cap - 1) / cap - (to - from + cap - 1) / cap
    {
      TailCostIs(c, r, cap, s, x);
    }
  }

  lemma {:induction false} BlocksCostIs(left: nat, b: nat, cap: nat)
    requires b > 0 && cap > 0
    ensures BlocksCost(left, b, cap) == left / b * ((b + cap - 1) / cap) + (left % b + cap - 1) / cap
  {
  }

  lemma {:induction false} NoTailCost(c: Config, r: Request, cap: nat, s: nat)
    requires c.Valid() && cap >= 1 && forall x: nat | LastHashed(c, r, x) :: x <= s || x % c.blockSize == 0
    ensures TailCost(c, r, s, cap) == 0
  {
    hide LastHashed, SplitCost, TailStop;
    if TailStop(c, r) > 0 { HashedThere(c, r); }
  }

  lemma {:induction false} TailCostIs(c: Config, r: Request, cap: nat, s: nat, x: nat)
    requires c.Valid() && cap >= 1 && r.numPrompt <= r.numTokens && LastHashed(c, r, x) && s < x && x % c.blockSize != 0
    ensures var from, to := x - x % c.blockSize, Min(x - x % c.blockSize + c.blockSize, r.numTokens);
            TailCost(c, r, s, cap) ==
            (x - from + cap - 1) / cap + (to - x + cap - 1) / cap - (to - from + cap - 1) / cap
  {
    LastHashedIs(c, r, x);
    BoundaryBounds(c.blockSize, x);
    hide TailStop;
  }

  lemma {:induction false} NothingAfter(c: Config, r: Request, cap: nat)
    requires c.Valid() && cap >= 1 && r.numPrompt <= r.numTokens
    ensures Steps(c, r, cap, r.numTokens) == 0 && TailCost(c, r, r.numTokens, cap) == 0
  {
    TailBelowPrompt(c, r);
  }

  // The cap.

  /** `GLM53_MIXED_PREFILL_CHUNK` after trimming and lowering: the words, a number, or text that
      does not parse. */
  datatype Setting = Off | Skip | Number(n: int) | Unreadable

  /** The cap a setting asks for, if it asks for any. */
  function Cap(setting: Setting): Option<nat> {
    match setting
    case Off => None
    case Skip => Some(0)
    case Number(n) => if n <= 0 then None else Some(n)
    case Unreadable => None
  }

  ghost predicate PeerDecodes(running: seq<Request>, current: Request) {
    exists k | 0 <= k < |running| :: running[k].id != current.id && running[k].computed >= running[k].numPrompt
  }

  /** The policy caps a prefill exactly when another running request is decoding. */
  method MixedPrefillPolicy(setting: Setting, running: seq<Request>, current: Request) returns (cap: Option<nat>)
    ensures cap == if PeerDecodes(running, current) then Cap(setting) else None
    ensures cap.Some? <==>
            && (setting == Skip || (setting.Number? && setting.n > 0))
            && exists k | 0 <= k < |running| ::
                 running[k].id != current.id && running[k].computed >= running[k].numPrompt
    ensures cap.Some? ==> cap.value == if setting.Number? then setting.n else 0
  {
    cap := Cap(setting);
    if cap.None? {
      return None;
    }
    for k := 0 to |running|
      invariant forall j | 0 <= j < k :: running[j].id == current.id || running[j].computed < running[j].numPrompt
    {
      if running[k].id != current.id && running[k].computed >= running[k].numPrompt {
        return cap;
      }
    }
    return None;
  }

  /** What the running loop hands to a request. */
  function CappedTokens(cap: Option<nat>, r: Request, numNew: nat): (t: nat)
    ensures cap.None? || r.computed >= r.numPrompt ==> t == numNew
    ensures cap.Some? && r.computed < r.numPrompt ==>
              t <= numNew && t <= cap.value && (t == numNew || t == cap.value)
  {
    if cap.Some? && r.computed < r.numPrompt then Min(numNew, cap.value) else numNew
  }

  /** A capped prefill beside a decoding peer takes at most the cap and, unless the setting is to
      skip, always moves, even through the block-aligned split. */
  lemma {:induction false} CappedPrefillMoves(
    setting: Setting, running: seq<Request>, r: Request, numNew: nat, c: Config)
    requires c.Valid() && r.computed < r.numPrompt && numNew >= 1 && PeerDecodes(running, r) && Cap(setting).Some?
    ensures var n := Split(c, r, r.computed, CappedTokens(Cap(setting), r, numNew), true);
            n <= Cap(setting).value && (n == 0 <==> setting == Skip)
  {
    var asked := CappedTokens(Cap(setting), r, numNew);
    if asked >= 1 {
      FloorAlwaysAdvances(c, r, r.computed, asked);
    } else {
      SplitOfNothing(c, r, r.computed);
    }
  }

  lemma {:induction false} SplitOfNothing(c: Config, r: Request, start: nat)
    requires c.Valid()
    ensures Split(c, r, start, 0, true) == 0
  {
    BoundaryBounds(c.blockSize, start);
    hide Boundary, Stops;
  }

  /** The queues of the waiting loop. */
  class Waiting {
    var queue: seq<Request>
    var skipped: seq<Request>

    constructor (requests: seq<Request>)
      ensures queue == requests && skipped == []
    {
      queue, skipped := requests, [];
    }

    /** The head of the queue is set aside when the cap leaves it nothing, and keeps its place in
        front of what was set aside before. Otherwise the queues stay and it gets its tokens. */
    method CapHead(cap: Option<nat>, numNew: nat) returns (tokens: Option<nat>)
      requires |queue| > 0
      modifies this
      ensures tokens.None? <==> cap == Some(0) && old(queue)[0].computed < old(queue)[0].numPrompt
      ensures tokens.None? ==> queue == old(queue)[1..] && skipped == [old(queue)[0]] + old(skipped)
      ensures tokens.Some? ==>
                && queue == old(queue) && skipped == old(skipped)
                && tokens.value == (if cap.Some? && queue[0].computed < queue[0].numPrompt && cap.value < numNew
                                    then cap.value else numNew)
    {
      var r := queue[0];
      if cap.Some? && r.computed < r.numPrompt {
        if cap.value <= 0 {
          queue := queue[1..];
          skipped := [r] + skipped;
          return None;
        }
        return Some(Min(numNew, cap.value));
      }
      return Some(numNew);
    }
  }

  /** The cached knob. */
  class AlignFloor {
    var cached: Option<bool>

    constructor ()
      ensures cached == None
    {
      cached := None;
    }

    /** The first reading of the environment decides for the life of the process. */
    method Enabled(env: string) returns (on: bool)
      modifies this
      ensures cached == Some(on)
      ensures on == if old(cached).Some? then old(cached).value else env !in {"0", "off", "false", "no", ""}
    {
      if cached.None? {
        cached := Some(env !in {"0", "off", "false", "no", ""});
      }
      return cached.value;
    }
  }
}
