/** The drafter's grouped dynamic convolution over a batch of equal-sized request blocks. */
module GroupedConv {
  import opened Arith

  // Positions: a bit mask when the block size is a power of two, a remainder otherwise.

  /** Bitwise and of naturals. */
  function BitAnd(a: nat, b: nat): (r: nat)
    ensures r <= a && r <= b
  {
    if a == 0 || b == 0 then 0
    else 2 * BitAnd(a / 2, b / 2) + (if a % 2 == 1 && b % 2 == 1 then 1 else 0)
  }

  /** Binary digit `i`. */
  predicate Bit(n: nat, i: nat)
    decreases i
  {
    if i == 0 then n % 2 == 1 else Bit(n / 2, i - 1)
  }

  lemma {:induction false} BitOfZero(i: nat)
    ensures !Bit(0, i)
  {
    if i == 0 {
    } else {
      BitOfZero(i - 1);
    }
  }

  /** The digits determine the number. */
  lemma {:induction false} BitsDetermine(a: nat, b: nat)
    requires forall i: nat :: Bit(a, i) == Bit(b, i)
    ensures a == b
  {
    if a == b == 0 {
    } else {
      forall i: nat ensures Bit(a / 2, i) == Bit(b / 2, i) {
        assert Bit(a, i + 1) == Bit(b, i + 1);
      }
      BitsDetermine(a / 2, b / 2);
      assert Bit(a, 0) == Bit(b, 0);
    }
  }

  /** Digit by digit. */
  lemma {:induction false} BitAndBits(a: nat, b: nat, i: nat)
    ensures Bit(BitAnd(a, b), i) <==> Bit(a, i) && Bit(b, i)
    decreases i
  {
    if a == 0 || b == 0 {
      BitOfZero(i);
    } else if i > 0 {
      BitAndBits(a / 2, b / 2, i - 1);
    }
  }

  lemma {:induction false} BitAndSelf(a: nat)
    ensures BitAnd(a, a) == a
  {
    if a == 0 {
    } else {
      BitAndSelf(a / 2);
    }
  }

  /** The guard recognises exactly the powers of two. */
  lemma {:induction false} GuardIsPowerOfTwo(b: nat) returns (k: nat)
    requires b > 0
    ensures BitAnd(b, b - 1) == 0 ==> b == Pow2(k)
    decreases b
  {
    k := 0;
    if b % 2 == 1 {
      BitAndSelf(b / 2);
      assert (b - 1) / 2 == b / 2;
    } else {
      k := GuardIsPowerOfTwo(b / 2);
      assert (b - 1) / 2 == b / 2 - 1;
      k := k + 1;
    }
  }

  lemma {:induction false} PowerOfTwoPassesGuard(k: nat)
    ensures BitAnd(Pow2(k), Pow2(k) - 1) == 0
  {
    if k == 0 {
    } else {
      PowerOfTwoPassesGuard(k - 1);
      assert Pow2(k) / 2 == Pow2(k - 1) && (Pow2(k) - 1) / 2 == Pow2(k - 1) - 1 && Pow2(k) % 2 == 0;
    }
  }

  lemma {:induction false} RemainderDoubles(p: nat, m: nat)
    requires m > 0
    ensures p % (2 * m) == 2 * ((p / 2) % m) + p % 2
  {
    var q := p / 2;
    assert q == m * (q / m) + q % m;
    assert 2 * (m * (q / m)) == (q / m) * (2 * m);
    DivUnique(p, 2 * m, q / m, 2 * (q % m) + p % 2);
  }

  lemma {:induction false} MaskDoubles(p: nat, m: nat)
    requires m > 0 && BitAnd(p / 2, m - 1) == (p / 2) % m
    ensures BitAnd(p, 2 * m - 1) == p % (2 * m)
  {
    RemainderDoubles(p, m);
    var mask := 2 * m - 1;
    assert mask / 2 == m - 1 && mask % 2 == 1;
    assert p > 0 ==> BitAnd(p, mask) == 2 * BitAnd(p / 2, mask / 2) + if p % 2 == 1 && mask % 2 == 1 then 1 else 0;
  }

  lemma {:induction false} MaskIsRemainder(p: nat, k: nat)
    ensures BitAnd(p, Pow2(k) - 1) == p % Pow2(k)
    decreases k
  {
    hide BitAnd;
    if k > 0 {
      MaskIsRemainder(p / 2, k - 1);
      MaskDoubles(p, Pow2(k - 1));
    } else {
      MaskOfNothing(p);
    }
  }

  lemma {:induction false} MaskOfNothing(p: nat)
    ensures BitAnd(p, 0) == 0 && p % 1 == 0 && Pow2(0) == 1
  {
  }

  /** Where a row stands in its block, as the code computes it. */
  function Position(row: nat, block: nat): nat
    requires block > 0
  {
    if BitAnd(block, block - 1) == 0 then BitAnd(row, block - 1) else row % block
  }

  lemma {:induction false} PositionIsRemainder(row: nat, block: nat)
    requires block > 0
    ensures Position(row, block) == row % block
  {
    if BitAnd(block, block - 1) == 0 {
      var k := GuardIsPowerOfTwo(block);
      MaskIsRemainder(row, k);
    }
  }

  // The convolution.

  datatype Kernel = Kernel(base: seq<seq<real>>, taps: nat, channels: nat, groupSize: nat, groups: nat, block: nat) {
    ghost predicate Valid() {
      && taps >= 1 && block >= 1 && groupSize >= 1 && channels == groups * groupSize
      && |base| == taps && forall t | 0 <= t < taps :: |base[t]| == channels
    }
  }

  /** Hidden rows and the per-row kernel corrections, one per tap and group. */
  datatype Input = Input(hidden: seq<seq<real>>, delta: seq<seq<seq<real>>>) {
    ghost predicate Valid(k: Kernel) {
      |hidden| == |delta| && forall i | 0 <= i < |hidden| :: RowShape(k, hidden[i], delta[i])
    }
  }

  ghost predicate RowShape(k: Kernel, hidden: seq<real>, delta: seq<seq<real>>) {
    |hidden| == k.channels && |delta| == k.taps && forall t | 0 <= t < k.taps :: |delta[t]| == k.groups
  }

  lemma {:induction false} GroupInRange(k: Kernel, c: nat)
    requires k.Valid() && c < k.channels
    ensures c / k.groupSize < k.groups
  {
    assert c == k.groupSize * (c / k.groupSize) + c % k.groupSize;
    if c / k.groupSize >= k.groups { MulMonotone(k.groups, c / k.groupSize, k.groupSize); }
  }

  function Coefficient(k: Kernel, x: Input, i: nat, t: nat, c: nat): real
    requires k.Valid() && x.Valid(k) && i < |x.hidden| && t < k.taps && c < k.channels
  {
    GroupInRange(k, c);
    k.base[t][c] + x.delta[i][t][c / k.groupSize]
  }

  /** Rows shifted down by `t`, zeros moving in. */
  function Shifted(k: Kernel, x: Input, i: nat, t: nat, c: nat): real
    requires k.Valid() && x.Valid(k) && i < |x.hidden| && c < k.channels
  {
    if i >= t then x.hidden[i - t][c] else 0.0
  }

  function Masked(k: Kernel, i: nat, t: nat): real
    requires k.Valid()
  {
    if Position(i, k.block) >= t then 1.0 else 0.0
  }

  /** What tap `t` adds to one output entry. */
  function Term(k: Kernel, x: Input, i: nat, t: nat, c: nat): real
    requires k.Valid() && x.Valid(k) && i < |x.hidden| && t < k.taps && c < k.channels
  {
    if t == 0 then Coefficient(k, x, i, 0, c) * x.hidden[i][c]
    else Coefficient(k, x, i, t, c) * Shifted(k, x, i, t, c) * Masked(k, i, t)
  }

  /** The first `m` taps of one output entry. */
  function ConvAt(k: Kernel, x: Input, i: nat, c: nat, m: nat): real
    requires k.Valid() && x.Valid(k) && i < |x.hidden| && c < k.channels && 1 <= m <= k.taps
  {
    if m == 1 then Term(k, x, i, 0, c) else ConvAt(k, x, i, c, m - 1) + Term(k, x, i, m - 1, c)
  }

  /** The convolution as such: row `i` and the `m - 1` rows before it, as far as its own block
      reaches back, each under its tap's coefficient. */
  function BlockConv(k: Kernel, x: Input, i: nat, c: nat, m: nat): real
    requires k.Valid() && x.Valid(k) && i < |x.hidden| && c < k.channels && m <= k.taps
  {
    if m == 0 then 0.0 else BlockConv(k, x, i, c, m - 1) + Tap(k, x, i, c, m - 1)
  }

  /** Row `i - t` under tap `t`, if it is in the block of row `i`. */
  function Tap(k: Kernel, x: Input, i: nat, c: nat, t: nat): real
    requires k.Valid() && x.Valid(k) && i < |x.hidden| && c < k.channels && t < k.taps
  {
    if t <= i % k.block then
      InBlock(k, i, t);
      Coefficient(k, x, i, t, c) * x.hidden[i - t][c]
    else 0.0
  }

  lemma {:induction false} InBlock(k: Kernel, i: nat, t: nat)
    requires k.Valid() && t <= i % k.block
    ensures t <= i
  {
    assert i == k.block * (i / k.block) + i % k.block;
  }

  lemma {:induction false} SameBlockIff(block: nat, i: nat, t: nat)
    requires block > 0 && t <= i
    ensures t <= i % block <==> (i - t) / block == i / block
  {
    Quotient(i, block);
    if t <= i % block {
      DivUnique(i - t, block, i / block, i % block - t);
    } else {
      Quotient(i - t, block);
    }
  }

  /** The convolution is linear in the hidden rows. */
  lemma {:induction false} ConvAdds(k: Kernel, x: Input, y: Input, z: Input, i: nat, c: nat, m: nat)
    requires k.Valid() && x.Valid(k) && y.Valid(k) && z.Valid(k) && c < k.channels && m <= k.taps
    requires x.delta == y.delta == z.delta && i < |x.hidden|
    requires forall j | 0 <= j < |x.hidden| :: z.hidden[j][c] == x.hidden[j][c] + y.hidden[j][c]
    ensures BlockConv(k, z, i, c, m) == BlockConv(k, x, i, c, m) + BlockConv(k, y, i, c, m)
    decreases m
  {
    hide Tap;
    if m == 0 {
    } else {
      ConvAdds(k, x, y, z, i, c, m - 1);
      TapAdds(k, x, y, z, i, c, m - 1);
    }
  }

  lemma {:induction false} TapAdds(k: Kernel, x: Input, y: Input, z: Input, i: nat, c: nat, t: nat)
    requires k.Valid() && x.Valid(k) && y.Valid(k) && z.Valid(k) && c < k.channels && t < k.taps
    requires x.delta == y.delta == z.delta && i < |x.hidden|
    requires forall j | 0 <= j < |x.hidden| :: z.hidden[j][c] == x.hidden[j][c] + y.hidden[j][c]
    ensures Tap(k, z, i, c, t) == Tap(k, x, i, c, t) + Tap(k, y, i, c, t)
  {
    SameCoefficient(k, x, y, i, t, c);
    SameCoefficient(k, x, z, i, t, c);
    hide Coefficient;
    if t <= i % k.block {
      InBlock(k, i, t);
      Distributes(Coefficient(k, x, i, t, c), x.hidden[i - t][c], y.hidden[i - t][c]);
    }
  }

  lemma {:induction false} SameCoefficient(k: Kernel, x: Input, y: Input, i: nat, t: nat, c: nat)
    requires k.Valid() && x.Valid(k) && y.Valid(k) && x.delta == y.delta
    requires i < |x.hidden| && t < k.taps && c < k.channels
    ensures Coefficient(k, x, i, t, c) == Coefficient(k, y, i, t, c)
  {
  }

  lemma {:induction false} Distributes(a: real, x: real, y: real)
    ensures a * (x + y) == a * x + a * y
  {
  }

  /** And this is its response to a single row `j` that is not zero: row `i` sees it if it is at most
      `taps - 1` rows back in the same block, under the base kernel of that distance plus row `i`'s
      own correction for the channel's group. Together with linearity that determines it. */
  lemma {:induction false} ConvOfOneRow(k: Kernel, x: Input, i: nat, c: nat, j: nat)
    requires k.Valid() && x.Valid(k) && i < |x.hidden| && j < |x.hidden| && c < k.channels
    requires forall r | 0 <= r < |x.hidden| && r != j :: x.hidden[r][c] == 0.0
    ensures c / k.groupSize < k.groups
    ensures BlockConv(k, x, i, c, k.taps) ==
            if j <= i && i - j < k.taps && j / k.block == i / k.block
            then (k.base[i - j][c] + x.delta[i][i - j][c / k.groupSize]) * x.hidden[j][c] else 0.0
  {
    GroupInRange(k, c);
    TapsOfOneRow(k, x, i, c, j, k.taps);
    if j <= i { SameBlockIff(k.block, i, i - j); }
    hide BlockConv;
  }

  lemma {:induction false} TapsOfOneRow(k: Kernel, x: Input, i: nat, c: nat, j: nat, m: nat)
    requires k.Valid() && x.Valid(k) && i < |x.hidden| && j < |x.hidden| && c < k.channels && m <= k.taps
    requires forall r | 0 <= r < |x.hidden| && r != j :: x.hidden[r][c] == 0.0
    ensures BlockConv(k, x, i, c, m) ==
            if j <= i && i - j < m && i - j <= i % k.block then Coefficient(k, x, i, i - j, c) * x.hidden[j][c] else 0.0
    decreases m
  {
    hide Coefficient;
    if m == 0 {
    } else {
      TapsOfOneRow(k, x, i, c, j, m - 1);
      if m - 1 <= i % k.block { InBlock(k, i, m - 1); }
    }
  }

  /** Shifting the rows and masking by position is the convolution inside the block. */
  lemma {:induction false} ConvIsBlockConv(k: Kernel, x: Input, i: nat, c: nat, m: nat)
    requires k.Valid() && x.Valid(k) && i < |x.hidden| && c < k.channels && 1 <= m <= k.taps
    ensures ConvAt(k, x, i, c, m) == BlockConv(k, x, i, c, m)
    decreases m
  {
    hide Coefficient, Position;
    PositionIsRemainder(i, k.block);
    if m - 1 <= i % k.block { InBlock(k, i, m - 1); }
    if m > 1 { ConvIsBlockConv(k, x, i, c, m - 1); }
  }

  /** `_grouped_conv`: the first tap, then every further tap added in place. */
  method Convolve(k: Kernel, x: Input) returns (output: array2<real>)
    requires k.Valid() && x.Valid(k)
    requires |x.hidden| >= k.taps - 1   // otherwise the shifted rows do not line up
    ensures fresh(output) && output.Length0 == |x.hidden| && output.Length1 == k.channels
    ensures forall i, c | 0 <= i < |x.hidden| && 0 <= c < k.channels :: output[i, c] == BlockConv(k, x, i, c, k.taps)
  {
    hide Term;
    output := new real[|x.hidden|, k.channels];
    forall i, c | 0 <= i < |x.hidden| && 0 <= c < k.channels {
      output[i, c] := Term(k, x, i, 0, c);
    }
    for tap := 1 to k.taps
      invariant forall i, c | 0 <= i < |x.hidden| && 0 <= c < k.channels :: output[i, c] == ConvAt(k, x, i, c, tap)
    {
      forall i, c | 0 <= i < |x.hidden| && 0 <= c < k.channels {
        output[i, c] := output[i, c] + Term(k, x, i, tap, c);
      }
    }
    hide ConvAt, BlockConv;
    forall i, c | 0 <= i < |x.hidden| && 0 <= c < k.channels ensures output[i, c] == BlockConv(k, x, i, c, k.taps) {
      ConvIsBlockConv(k, x, i, c, k.taps);
    }
  }

  // Block locality.

  function Concat<T>(parts: seq<seq<T>>): seq<T> {
    if parts == [] then [] else Concat(parts[..|parts| - 1]) + parts[|parts| - 1]
  }

  lemma {:induction false} ConcatAt<T>(parts: seq<seq<T>>, size: nat, r: nat, i: nat)
    requires forall j | 0 <= j < |parts| :: |parts[j]| == size
    requires r < |parts| && i < size
    ensures |Concat(parts)| == |parts| * size
    ensures r * size + i < |Concat(parts)| && Concat(parts)[r * size + i] == parts[r][i]
    decreases |parts|
  {
    ConcatLength(parts, size);
    ConcatLength(parts[..|parts| - 1], size);
    var last := |parts| - 1;
    assert last * size + size == |parts| * size;
    if r == last {
    } else {
      ConcatAt(parts[..last], size, r, i);
    }
  }

  lemma {:induction false} ConcatLength<T>(parts: seq<seq<T>>, size: nat)
    requires forall j | 0 <= j < |parts| :: |parts[j]| == size
    ensures |Concat(parts)| == |parts| * size
    decreases |parts|
  {
    if parts == [] {
    } else {
      ConcatLength(parts[..|parts| - 1], size);
      assert (|parts| - 1) * size + size == |parts| * size;
    }
  }

  /** The requests of a batch, each one block of rows, stacked. */
  function Stack(xs: seq<Input>): Input {
    Input(Concat(seq(|xs|, r requires 0 <= r < |xs| => xs[r].hidden)),
          Concat(seq(|xs|, r requires 0 <= r < |xs| => xs[r].delta)))
  }

  ghost predicate OneBlockEach(k: Kernel, xs: seq<Input>) {
    forall r | 0 <= r < |xs| :: xs[r].Valid(k) && |xs[r].hidden| == k.block
  }

  lemma {:induction false} StackAt(k: Kernel, xs: seq<Input>, r: nat, i: nat)
    requires k.Valid() && OneBlockEach(k, xs) && r < |xs| && i < k.block
    ensures |Stack(xs).hidden| == |xs| * k.block == |Stack(xs).delta|
    ensures r * k.block + i < |Stack(xs).hidden|
    ensures Stack(xs).hidden[r * k.block + i] == xs[r].hidden[i]
    ensures Stack(xs).delta[r * k.block + i] == xs[r].delta[i]
  {
    ConcatAt(seq(|xs|, r requires 0 <= r < |xs| => xs[r].hidden), k.block, r, i);
    ConcatAt(seq(|xs|, r requires 0 <= r < |xs| => xs[r].delta), k.block, r, i);
  }

  lemma {:induction false} StackValid(k: Kernel, xs: seq<Input>)
    requires k.Valid() && OneBlockEach(k, xs)
    ensures Stack(xs).Valid(k) && |Stack(xs).hidden| == |xs| * k.block
  {
    ConcatLength(seq(|xs|, r requires 0 <= r < |xs| => xs[r].hidden), k.block);
    ConcatLength(seq(|xs|, r requires 0 <= r < |xs| => xs[r].delta), k.block);
    var s := Stack(xs);
    hide Stack, RowShape;
    forall j | 0 <= j < |s.hidden| ensures RowShape(k, s.hidden[j], s.delta[j]) {
      RowsHaveShape(k, xs, j);
    }
  }

  lemma {:induction false} RowsHaveShape(k: Kernel, xs: seq<Input>, j: nat)
    requires k.Valid() && OneBlockEach(k, xs)
    requires |Stack(xs).hidden| == |xs| * k.block == |Stack(xs).delta| && j < |xs| * k.block
    ensures RowShape(k, Stack(xs).hidden[j], Stack(xs).delta[j])
  {
    hide Stack, RowShape;
    var r, i := j / k.block, j % k.block;
    assert j == k.block * r + i;
    if r >= |xs| { MulMonotone(|xs|, r, k.block); }
    StackAt(k, xs, r, i);
    assert j == r * k.block + i;
  }

  /** A stacked row sees its own block only: its output is the one its request would get alone. */
  lemma {:induction false} ConvIsBlockLocal(k: Kernel, xs: seq<Input>, r: nat, i: nat, c: nat, m: nat)
    requires k.Valid() && OneBlockEach(k, xs)
    requires r < |xs| && i < k.block && c < k.channels && 1 <= m <= k.taps
    ensures Stack(xs).Valid(k) && r * k.block + i < |Stack(xs).hidden|
    ensures ConvAt(k, Stack(xs), r * k.block + i, c, m) == ConvAt(k, xs[r], i, c, m)
    decreases m
  {
    hide Term, Stack;
    StackValid(k, xs);
    StackAt(k, xs, r, i);
    TermIsBlockLocal(k, xs, r, i, c, m - 1);
    if m > 1 { ConvIsBlockLocal(k, xs, r, i, c, m - 1); }
  }

  lemma {:induction false} SamePosition(block: nat, r: nat, i: nat)
    requires i < block
    ensures Position(r * block + i, block) == i == Position(i, block)
  {
    PositionIsRemainder(r * block + i, block);
    PositionIsRemainder(i, block);
    DivUnique(r * block + i, block, r, i);
    DivUnique(i, block, 0, i);
  }

  lemma {:induction false} TermIsBlockLocal(k: Kernel, xs: seq<Input>, r: nat, i: nat, c: nat, t: nat)
    requires k.Valid() && OneBlockEach(k, xs) && r < |xs| && i < k.block && c < k.channels && t < k.taps
    ensures Stack(xs).Valid(k) && r * k.block + i < |Stack(xs).hidden|
    ensures Term(k, Stack(xs), r * k.block + i, t, c) == Term(k, xs[r], i, t, c)
  {
    hide Stack, Position;
    StackValid(k, xs);
    StackAt(k, xs, r, i);
    SamePosition(k.block, r, i);
    if i >= t {
      StackAt(k, xs, r, i - t);
      assert r * k.block + i - t == r * k.block + (i - t);
    }
  }
}
