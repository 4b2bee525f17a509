/** Sharding of the EXL3 expert projections over tensor-parallel ranks, over the reals: shards
    concatenate to the original, and the ranks' expert outputs add up to the unsharded one. */
module TensorParallel {
  import opened Arith
  import opened Wrappers

  type Vec = seq<real>

  // Narrowing.

  /** `_narrow_tp` along the first dimension. */
  function NarrowTp<T>(x: seq<T>, rank: nat, tp: nat): (r: Result<seq<T>>)
    requires tp > 1 ==> rank < tp
  {
    if tp <= 1 then Ok(x)
    else if |x| % tp != 0 then Error("size is not divisible by tp")
    else
      ChunkInRange(|x|, rank, tp);
      Ok(x[|x| / tp * rank .. |x| / tp * rank + |x| / tp])
  }

  lemma {:induction false} ChunkInRange(size: nat, rank: nat, tp: nat)
    requires tp > 0 && rank < tp
    ensures size / tp * rank + size / tp <= size
  {
    assert size == tp * (size / tp) + size % tp;
    MulMonotone(rank + 1, tp, size / tp);
    assert size / tp * rank + size / tp == (rank + 1) * (size / tp);
  }

  lemma {:induction false} OffsetScales(w: nat, k: nat, r: nat)
    requires w == 16 * k
    ensures RankOffset(w, r) == 16 * RankOffset(k, r)
    decreases r
  {
    if r == 0 {
    } else {
      OffsetScales(w, k, r - 1);
    }
  }

  lemma {:induction false} OffsetDivides(w: nat, r: nat, size: nat)
    requires size > 0 && w % size == 0
    ensures RankOffset(w, r) % size == 0
    decreases r
  {
    if r == 0 {
    } else {
      OffsetDivides(w, r - 1, size);
      MultiplesAdd(RankOffset(w, r - 1), w, size);
    }
  }

  lemma {:induction false} MultiplesAdd(a: nat, b: nat, size: nat)
    requires size > 0 && a % size == 0 && b % size == 0
    ensures (a + b) % size == 0
  {
    var p, q := a / size, b / size;
    assert a == p * size && b == q * size;
    assert (p + q) * size == p * size + q * size;
    DivUnique(a + b, size, p + q, 0);
  }

  lemma {:induction false} NarrowAt<T>(x: seq<T>, rank: nat, tp: nat, w: nat)
    requires tp >= 1 && rank < tp && |x| == w * tp
    ensures |x| % tp == 0 && RankOffset(w, rank) + w <= |x|
    ensures NarrowTp(x, rank, tp) == Ok(x[RankOffset(w, rank)..RankOffset(w, rank) + w])
  {
    DivUnique(|x|, tp, w, 0);
    RankOffsetIsMultiple(w, rank);
    ChunkInRange(|x|, rank, tp);
    if tp == 1 { assert x[0..|x|] == x; }
  }

  /** The shards of the first `n` ranks, put together. */
  function Shards<T>(x: seq<T>, tp: nat, n: nat): seq<T>
    requires 1 <= tp && n <= tp && |x| % tp == 0
  {
    if n == 0 then [] else Shards(x, tp, n - 1) + NarrowTp(x, n - 1, tp).value
  }

  lemma {:induction false} ShardsArePrefix<T>(x: seq<T>, tp: nat, w: nat, n: nat)
    requires 1 <= tp && n <= tp && |x| % tp == 0 && |x| == w * tp
    ensures RankOffset(w, n) <= |x| && Shards(x, tp, n) == x[..RankOffset(w, n)]
    decreases n
  {
    hide NarrowTp;
    if n == 0 {
    } else {
      ShardsArePrefix(x, tp, w, n - 1);
      NarrowAt(x, n - 1, tp, w);
      assert x[..RankOffset(w, n - 1)] + x[RankOffset(w, n - 1)..RankOffset(w, n)] == x[..RankOffset(w, n)];
    }
  }

  /** Sharding loses nothing: the ranks' shards in order are the tensor, for every `tp` that
      divides it; and any other `tp` above 1 is refused. */
  lemma {:induction false} ShardsRoundTrip<T>(x: seq<T>, tp: nat)
    requires tp >= 1
    ensures |x| % tp == 0 ==> Shards(x, tp, tp) == x
    ensures tp > 1 ==> (NarrowTp(x, 0, tp).Ok? <==> |x| % tp == 0)
  {
    if |x| % tp == 0 {
      var w := |x| / tp;
      assert |x| == w * tp;
      ShardsArePrefix(x, tp, w, tp);
      RankOffsetIsMultiple(w, tp);
    }
  }

  // Packed projections.

  /** A decoded 16 by 16 weight tile. */
  type Tile = seq<seq<real>>

  /** The block-diagonal rotation applied on both sides of a projection. */
  datatype Rotation = Rotation(size: nat, t: seq<seq<real>>) {
    ghost predicate Valid() {
      size > 0 && |t| == size && forall j | 0 <= j < size :: |t[j]| == size
    }
  }

  datatype Linear = Linear(trellis: seq<seq<Tile>>, suh: Vec, svh: Vec) {
    ghost predicate Valid() {
      && |suh| == 16 * |trellis|
      && |svh| % 16 == 0
      && (forall a | 0 <= a < |trellis| :: 16 * |trellis[a]| == |svh|)
      && forall a, b | 0 <= a < |trellis| && 0 <= b < |trellis[a]| :: ValidTile(trellis[a][b])
    }
  }

  ghost predicate ValidTile(w: Tile) {
    |w| == 16 && forall i | 0 <= i < 16 :: |w[i]| == 16
  }

  function At(l: Linear, i: nat, o: nat): real
    requires l.Valid() && i < |l.suh| && o < |l.svh|
  {
    assert |l.trellis[i / 16]| == |l.svh| / 16;
    assert ValidTile(l.trellis[i / 16][o / 16]);
    l.trellis[i / 16][o / 16][i % 16][o % 16]
  }

  /** Entry (r, c) of tile (a, b) is the weight's row `16 a + r` and column `16 b + c`. */
  lemma {:induction false} AtTile(l: Linear, a: nat, b: nat, r: nat, c: nat)
    requires l.Valid() && a < |l.trellis| && b < |l.trellis[a]| && r < 16 && c < 16
    ensures 16 * a + r < |l.suh| && 16 * b + c < |l.svh|
    ensures ValidTile(l.trellis[a][b]) && At(l, 16 * a + r, 16 * b + c) == l.trellis[a][b][r][c]
  {
    TileIndex(a, r);
    TileIndex(b, c);
  }

  function Scale(s: Vec, x: Vec): (y: Vec)
    requires |s| == |x|
    ensures |y| == |x| && forall i | 0 <= i < |x| :: y[i] == s[i] * x[i]
  {
    seq(|x|, i requires 0 <= i < |x| => s[i] * x[i])
  }

  function BlockSum(h: Rotation, v: Vec, base: nat, col: nat, m: nat): real
    requires h.Valid() && col < h.size && m <= h.size && base + m <= |v|
  {
    if m == 0 then 0.0 else BlockSum(h, v, base, col, m - 1) + h.t[m - 1][col] * v[base + m - 1]
  }

  /** The start of the block that holds `i`. */
  function BlockStart(size: nat, i: nat): nat
    requires size > 0
  {
    i / size * size
  }

  lemma {:induction false} BlockInRange(size: nat, len: nat, i: nat)
    requires size > 0 && len % size == 0 && i < len
    ensures BlockStart(size, i) + size <= len
  {
    assert len == size * (len / size) && i == size * (i / size) + i % size;
    if i / size >= len / size { MulMonotone(len / size, i / size, size); }
    MulMonotone(i / size + 1, len / size, size);
    assert (i / size + 1) * size == i / size * size + size;
  }

  function RotatedAt(h: Rotation, v: Vec, i: nat): real
    requires h.Valid() && |v| % h.size == 0 && i < |v|
  {
    BlockInRange(h.size, |v|, i);
    BlockSum(h, v, BlockStart(h.size, i), i % h.size, h.size)
  }

  function Rotated(h: Rotation, v: Vec): (y: Vec)
    requires h.Valid() && |v| % h.size == 0
    ensures |y| == |v| && forall i | 0 <= i < |v| :: y[i] == RotatedAt(h, v, i)
  {
    seq(|v|, i requires 0 <= i < |v| => RotatedAt(h, v, i))
  }

  /** Column `o` of the weight against the first `n` entries of `z`. */
  function DotColumn(l: Linear, z: Vec, o: nat, n: nat): real
    requires l.Valid() && n <= |z| == |l.suh| && o < |l.svh|
  {
    if n == 0 then 0.0 else DotColumn(l, z, o, n - 1) + z[n - 1] * At(l, n - 1, o)
  }

  /** The first `m` entries of `z` times the weight's first `m` rows. */
  function Product(l: Linear, z: Vec, m: nat): (y: Vec)
    requires l.Valid() && m <= |z| == |l.suh|
    ensures |y| == |l.svh| && forall o | 0 <= o < |y| :: y[o] == DotColumn(l, z, o, m)
  {
    seq(|l.svh|, o requires 0 <= o < |l.svh| => DotColumn(l, z, o, m))
  }

  ghost predicate Fits(h: Rotation, l: Linear) {
    h.Valid() && l.Valid() && |l.suh| % h.size == 0 && |l.svh| % h.size == 0
  }

  /** The input side of a projection. */
  function Start(h: Rotation, suh: Vec, x: Vec): (y: Vec)
    requires h.Valid() && |suh| == |x| && |x| % h.size == 0
    ensures |y| == |x|
  {
    Rotated(h, Scale(suh, x))
  }

  /** The output side of a projection. */
  function Finish(h: Rotation, svh: Vec, v: Vec): (y: Vec)
    requires h.Valid() && |svh| == |v| && |v| % h.size == 0
    ensures |y| == |v|
  {
    Scale(svh, Rotated(h, v))
  }

  /** One projection: scale, rotate, multiply, rotate, scale. */
  function Forward(h: Rotation, l: Linear, x: Vec): (y: Vec)
    requires Fits(h, l) && |x| == |l.suh|
    ensures |y| == |l.svh|
  {
    Finish(h, l.svh, Product(l, Start(h, l.suh, x), |x|))
  }

  /** The rotation spreads entry `j` over its own block, by row `j` of the block's matrix. With
      `RotationAdds` that determines it. */
  lemma {:induction false} RotationOfUnit(h: Rotation, v: Vec, j: nat, i: nat)
    requires h.Valid() && |v| % h.size == 0 && i < |v| && j < |v|
    requires forall k | 0 <= k < |v| && k != j :: v[k] == 0.0
    ensures Rotated(h, v)[i] == if j / h.size == i / h.size then h.t[j % h.size][i % h.size] * v[j] else 0.0
  {
    var base := BlockStart(h.size, i);
    BlockInRange(h.size, |v|, i);
    SameBlock(h.size, i, j);
    hide BlockStart, BlockSum;
    BlockSumOfUnit(h, v, base, i % h.size, h.size, j);
  }

  lemma {:induction false} SameBlock(size: nat, i: nat, j: nat)
    requires size > 0
    ensures j / size == i / size <==> BlockStart(size, i) <= j < BlockStart(size, i) + size
    ensures j / size == i / size ==> j - BlockStart(size, i) == j % size
  {
    Quotient(i, size);
    Quotient(j, size);
    if BlockStart(size, i) <= j < BlockStart(size, i) + size {
      DivUnique(j, size, i / size, j - BlockStart(size, i));
    }
    assert j == size * (j / size) + j % size;
  }

  lemma {:induction false} BlockSumOfUnit(h: Rotation, v: Vec, base: nat, col: nat, m: nat, j: nat)
    requires h.Valid() && col < h.size && m <= h.size && base + m <= |v| && j < |v|
    requires forall k | 0 <= k < |v| && k != j :: v[k] == 0.0
    ensures BlockSum(h, v, base, col, m) == if base <= j < base + m then h.t[j - base][col] * v[j] else 0.0
    decreases m
  {
    if m == 0 {
    } else {
      BlockSumOfUnit(h, v, base, col, m - 1, j);
    }
  }

  /** The product sees entry `i` through row `i` of the weight, and is linear. */
  lemma {:induction false} ProductOfUnit(l: Linear, z: Vec, i: nat, o: nat, n: nat)
    requires l.Valid() && n <= |z| == |l.suh| && o < |l.svh| && i < |z|
    requires forall k | 0 <= k < |z| && k != i :: z[k] == 0.0
    ensures Product(l, z, n)[o] == if i < n then z[i] * At(l, i, o) else 0.0
    decreases n
  {
    hide At;
    if n == 0 {
    } else {
      ProductOfUnit(l, z, i, o, n - 1);
    }
  }

  lemma {:induction false} ProductAdds(l: Linear, a: Vec, b: Vec, n: nat)
    requires l.Valid() && n <= |a| == |b| == |l.suh|
    ensures Product(l, AddVec(a, b), n) == AddVec(Product(l, a, n), Product(l, b, n))
  {
    hide At, DotColumn, Product, AddVec;
    var whole, sum := Product(l, AddVec(a, b), n), AddVec(Product(l, a, n), Product(l, b, n));
    forall o | 0 <= o < |l.svh| ensures whole[o] == sum[o] {
      DotAdds(l, a, b, o, n);
    }
    assert whole == sum;
  }

  lemma {:induction false} DotAdds(l: Linear, a: Vec, b: Vec, o: nat, n: nat)
    requires l.Valid() && n <= |a| == |b| == |l.suh| && o < |l.svh|
    ensures DotColumn(l, AddVec(a, b), o, n) == DotColumn(l, a, o, n) + DotColumn(l, b, o, n)
    decreases n
  {
    hide At;
    if n == 0 {
    } else {
      DotAdds(l, a, b, o, n - 1);
      Distributes(At(l, n - 1, o), a[n - 1], b[n - 1]);
    }
  }

  /** A projection in stages: scale by `suh`, rotate, multiply by the weight, rotate, scale by `svh`. */
  lemma {:induction false} ForwardStages(h: Rotation, l: Linear, x: Vec)
    requires Fits(h, l) && |x| == |l.suh|
    ensures var y := Rotated(h, Product(l, Rotated(h, Scale(l.suh, x)), |x|));
            |y| == |l.svh| && forall o | 0 <= o < |l.svh| :: Forward(h, l, x)[o] == l.svh[o] * y[o]
  {
    hide Rotated, Product;
  }

  // Shards of projections.

  /** Gate and up: the trellis is narrowed along its second dimension, `svh` with it. */
  function ShardCol(l: Linear, rank: nat, tp: nat): (s: Result<Linear>)
    requires l.Valid() && (tp > 1 ==> rank < tp)
  {
    if tp > 1 && (|l.svh| / 16 % tp != 0 || |l.svh| % tp != 0) then Error("size is not divisible by tp")
    else Ok(Linear(seq(|l.trellis|, a requires 0 <= a < |l.trellis| => NarrowTp(l.trellis[a], rank, tp).value),
                   l.suh, NarrowTp(l.svh, rank, tp).value))
  }

  /** Down: the trellis is narrowed along its first dimension, `suh` with it. */
  function ShardRow(l: Linear, rank: nat, tp: nat): (s: Result<Linear>)
    requires l.Valid() && (tp > 1 ==> rank < tp)
  {
    if tp > 1 && (|l.trellis| % tp != 0 || |l.suh| % tp != 0) then Error("size is not divisible by tp")
    else Ok(Linear(NarrowTp(l.trellis, rank, tp).value, NarrowTp(l.suh, rank, tp).value, l.svh))
  }

  /** A projection is sharded exactly when its whole tiles divide among the ranks. */
  lemma {:induction false} ShardedIff(l: Linear, rank: nat, tp: nat)
    requires l.Valid() && (tp > 1 ==> rank < tp)
    ensures ShardCol(l, rank, tp).Ok? <==> tp <= 1 || |l.svh| / 16 % tp == 0
    ensures ShardRow(l, rank, tp).Ok? <==> tp <= 1 || |l.trellis| % tp == 0
  {
    if tp > 1 {
      TilesDivide(|l.svh| / 16, tp);
      TilesDivide(|l.trellis|, tp);
    }
  }

  lemma {:induction false} TilesDivide(n: nat, tp: nat)
    requires tp > 0
    ensures n % tp == 0 ==> 16 * n % tp == 0
  {
    if n % tp == 0 {
      assert n == tp * (n / tp);
      assert 16 * n == 16 * (n / tp) * tp;
      DivUnique(16 * n, tp, 16 * (n / tp), 0);
    }
  }

  /** `s` is columns `off` to `off + |s.svh|` of `l`. */
  ghost predicate IsColumns(l: Linear, s: Linear, off: nat) {
    && l.Valid() && s.Valid() && s.suh == l.suh && off + |s.svh| <= |l.svh|
    && s.svh == l.svh[off..off + |s.svh|]
    && forall i: nat, o: nat | i < |s.suh| && o < |s.svh| :: At(s, i, o) == At(l, i, off + o)
  }

  /** `s` is rows `off` to `off + |s.suh|` of `l`. */
  ghost predicate IsRows(l: Linear, s: Linear, off: nat) {
    && l.Valid() && s.Valid() && s.svh == l.svh && off + |s.suh| <= |l.suh|
    && s.suh == l.suh[off..off + |s.suh|]
    && forall i: nat, o: nat | i < |s.suh| && o < |s.svh| :: At(s, i, o) == At(l, off + i, o)
  }

  lemma {:induction false} SixteenTimes(n: nat, k: nat, tp: nat)
    requires n == 16 * k * tp
    ensures n / 16 == k * tp && n == (16 * k) * tp
  {
    assert 16 * k * tp == 16 * (k * tp);
  }

  lemma {:induction false} TileIndex(k: nat, i: nat)
    ensures (16 * k + i) / 16 == k + i / 16 && (16 * k + i) % 16 == i % 16
  {
  }

  /** Column shards hold whole consecutive columns. */
  lemma {:induction false} ColShardIsColumns(l: Linear, rank: nat, tp: nat, k: nat)
    requires l.Valid() && tp >= 1 && rank < tp && |l.svh| == 16 * k * tp
    ensures ShardCol(l, rank, tp).Ok?
    ensures var s := ShardCol(l, rank, tp).value; |s.svh| == 16 * k && IsColumns(l, s, RankOffset(16 * k, rank))
  {
    SixteenTimes(|l.svh|, k, tp);
    NarrowAt(l.svh, rank, tp, 16 * k);
    OffsetScales(16 * k, k, rank);
    DivUnique(k * tp, tp, k, 0);
    var off := RankOffset(k, rank);
    var s := ShardCol(l, rank, tp).value;
    forall a | 0 <= a < |l.trellis| ensures off + k <= |l.trellis[a]| && s.trellis[a] == l.trellis[a][off..off + k] {
      NarrowAt(l.trellis[a], rank, tp, k);
    }
    ColumnTiles(l, s, off, k);
  }

  lemma {:induction false} ColumnTiles(l: Linear, s: Linear, off: nat, k: nat)
    requires l.Valid() && s.suh == l.suh && |s.svh| == 16 * k && |s.trellis| == |l.trellis|
    requires 16 * off + 16 * k <= |l.svh| && s.svh == l.svh[16 * off..16 * off + 16 * k]
    requires forall a | 0 <= a < |l.trellis| :: off + k <= |l.trellis[a]| && s.trellis[a] == l.trellis[a][off..off + k]
    ensures IsColumns(l, s, 16 * off)
  {
    forall a, b | 0 <= a < |s.trellis| && 0 <= b < |s.trellis[a]| ensures ValidTile(s.trellis[a][b]) {
      assert s.trellis[a][b] == l.trellis[a][off + b];
      hide ValidTile;
    }
    hide ValidTile;
    assert s.Valid();
    forall i: nat, o: nat | i < |s.suh| && o < |s.svh| ensures At(s, i, o) == At(l, i, 16 * off + o) {
      TileIndex(off, o);
      assert s.trellis[i / 16][o / 16] == l.trellis[i / 16][off + o / 16];
    }
  }

  /** Row shards hold whole consecutive rows. */
  lemma {:induction false} RowShardIsRows(l: Linear, rank: nat, tp: nat, k: nat)
    requires l.Valid() && tp >= 1 && rank < tp && |l.suh| == 16 * k * tp
    ensures ShardRow(l, rank, tp).Ok?
    ensures var s := ShardRow(l, rank, tp).value; |s.suh| == 16 * k && IsRows(l, s, RankOffset(16 * k, rank))
  {
    SixteenTimes(|l.suh|, k, tp);
    NarrowAt(l.suh, rank, tp, 16 * k);
    NarrowAt(l.trellis, rank, tp, k);
    OffsetScales(16 * k, k, rank);
    RowTiles(l, ShardRow(l, rank, tp).value, RankOffset(k, rank), k);
  }

  lemma {:induction false} RowTiles(l: Linear, s: Linear, off: nat, k: nat)
    requires l.Valid() && s.svh == l.svh && |s.suh| == 16 * k && off + k <= |l.trellis|
    requires s.suh == l.suh[16 * off..16 * off + 16 * k] && s.trellis == l.trellis[off..off + k]
    ensures IsRows(l, s, 16 * off)
  {
    hide ValidTile;
    assert forall a | 0 <= a < k :: s.trellis[a] == l.trellis[off + a];
    assert s.Valid();
    forall i: nat, o: nat | i < |s.suh| && o < |s.svh| ensures At(s, i, o) == At(l, 16 * off + i, o) {
      TileIndex(off, i);
    }
  }

  // Rotations act inside one shard.

  lemma {:induction false} BlockOfPart(size: nat, off: nat, i: nat)
    requires size > 0 && off % size == 0
    ensures (off + i) % size == i % size && BlockStart(size, off + i) == off + BlockStart(size, i)
  {
    assert off == size * (off / size) && i == size * (i / size) + i % size;
    DivUnique(off + i, size, off / size + i / size, i % size);
    assert (off / size + i / size) * size == size * (off / size) + i / size * size;
  }

  lemma {:induction false} BlockSumOfPart(h: Rotation, v: Vec, p: Vec, off: nat, base: nat, col: nat, m: nat)
    requires h.Valid() && col < h.size && m <= h.size && base + m <= |p| && off + |p| <= |v|
    requires p == v[off..off + |p|]
    ensures BlockSum(h, p, base, col, m) == BlockSum(h, v, off + base, col, m)
    decreases m
  {
    if m == 0 {
    } else {
      BlockSumOfPart(h, v, p, off, base, col, m - 1);
    }
  }

  lemma {:induction false} RotatedAtOfPart(h: Rotation, v: Vec, p: Vec, off: nat, i: nat)
    requires h.Valid() && off + |p| <= |v| && p == v[off..off + |p|] && i < |p|
    requires |v| % h.size == 0 && |p| % h.size == 0 && off % h.size == 0
    ensures RotatedAt(h, p, i) == RotatedAt(h, v, off + i)
  {
    BlockOfPart(h.size, off, i);
    BlockInRange(h.size, |p|, i);
    hide BlockStart, BlockSum;
    BlockSumOfPart(h, v, p, off, BlockStart(h.size, i), i % h.size, h.size);
  }

  /** Rotating a part, when the rotation's block divides both the part and its offset, gives
      that part of the rotated whole. */
  lemma {:induction false} RotationIsLocal(h: Rotation, v: Vec, p: Vec, off: nat)
    requires h.Valid() && off + |p| <= |v| && p == v[off..off + |p|]
    requires |v| % h.size == 0 && |p| % h.size == 0 && off % h.size == 0
    ensures Rotated(h, p) == Rotated(h, v)[off..off + |p|]
  {
    hide Rotated, RotatedAt;
    forall i | 0 <= i < |p| ensures Rotated(h, p)[i] == Rotated(h, v)[off + i] {
      RotatedAtOfPart(h, v, p, off, i);
    }
  }

  lemma {:induction false} ScaleIsLocal(s: Vec, v: Vec, off: nat, w: nat)
    requires |s| == |v| && off + w <= |v|
    ensures Scale(s[off..off + w], v[off..off + w]) == Scale(s, v)[off..off + w]
  {
    hide Scale;
    var p, whole := Scale(s[off..off + w], v[off..off + w]), Scale(s, v);
    assert forall i | 0 <= i < w :: p[i] == whole[off + i];
  }

  lemma {:induction false} StartIsLocal(h: Rotation, suh: Vec, a: Vec, off: nat, w: nat)
    requires h.Valid() && |suh| == |a| && |a| % h.size == 0 && off + w <= |a| && w % h.size == 0 && off % h.size == 0
    ensures Start(h, suh[off..off + w], a[off..off + w]) == Start(h, suh, a)[off..off + w]
  {
    hide Scale, Rotated;
    ScaleIsLocal(suh, a, off, w);
    RotationIsLocal(h, Scale(suh, a), Scale(suh[off..off + w], a[off..off + w]), off);
  }

  lemma {:induction false} FinishIsLocal(h: Rotation, svh: Vec, v: Vec, off: nat, w: nat)
    requires h.Valid() && |svh| == |v| && |v| % h.size == 0 && off + w <= |v| && w % h.size == 0 && off % h.size == 0
    ensures Finish(h, svh[off..off + w], v[off..off + w]) == Finish(h, svh, v)[off..off + w]
  {
    hide Scale, Rotated;
    RotationIsLocal(h, v, v[off..off + w], off);
    ScaleIsLocal(svh, Rotated(h, v), off, w);
  }

  lemma {:induction false} SameColumn(l: Linear, s: Linear, off: nat, z: Vec, o: nat, n: nat)
    requires IsColumns(l, s, off) && n <= |z| == |l.suh| && o < |s.svh|
    ensures DotColumn(s, z, o, n) == DotColumn(l, z, off + o, n)
    decreases n
  {
    hide At;
    if n == 0 {
    } else {
      SameColumn(l, s, off, z, o, n - 1);
      assert At(s, n - 1, o) == At(l, n - 1, off + o);
    }
  }

  lemma {:induction false} SameColumns(l: Linear, s: Linear, off: nat, z: Vec)
    requires IsColumns(l, s, off) && |z| == |l.suh|
    ensures Product(s, z, |z|) == Product(l, z, |z|)[off..off + |s.svh|]
  {
    hide At, DotColumn, Product;
    forall o | 0 <= o < |s.svh| ensures Product(s, z, |z|)[o] == Product(l, z, |z|)[off + o] {
      SameColumn(l, s, off, z, o, |z|);
    }
  }

  /** A projection by some columns computes that part of the whole projection. */
  lemma {:induction false} ColumnParallel(h: Rotation, l: Linear, s: Linear, off: nat, x: Vec)
    requires Fits(h, l) && Fits(h, s) && IsColumns(l, s, off) && off % h.size == 0 && |x| == |l.suh|
    ensures Forward(h, s, x) == Forward(h, l, x)[off..off + |s.svh|]
  {
    hide Start, Finish, Product, At;
    var z := Start(h, l.suh, x);
    SameColumns(l, s, off, z);
    FinishIsLocal(h, l.svh, Product(l, z, |x|), off, |s.svh|);
  }

  // Summing over ranks.

  function AddVec(a: Vec, b: Vec): (y: Vec)
    requires |a| == |b|
    ensures |y| == |a| && forall i | 0 <= i < |a| :: y[i] == a[i] + b[i]
  {
    seq(|a|, i requires 0 <= i < |a| => a[i] + b[i])
  }

  function Zero(n: nat): (y: Vec)
    ensures |y| == n && forall i | 0 <= i < n :: y[i] == 0.0
  {
    seq(n, _ => 0.0)
  }

  lemma {:induction false} PartialDot(l: Linear, s: Linear, off: nat, u: Vec, p: Vec, o: nat, n: nat)
    requires IsRows(l, s, off) && |u| == |l.suh| && o < |l.svh| && n <= |s.suh| == |p| && p == u[off..off + |p|]
    ensures DotColumn(l, u, o, off) + DotColumn(s, p, o, n) == DotColumn(l, u, o, off + n)
    decreases n
  {
    hide At;
    if n == 0 {
    } else {
      PartialDot(l, s, off, u, p, o, n - 1);
      assert At(s, n - 1, o) == At(l, off + (n - 1), o);
      assert DotColumn(l, u, o, off + n) == DotColumn(l, u, o, off + n - 1) + u[off + n - 1] * At(l, off + n - 1, o);
    }
  }

  lemma {:induction false} PartialProduct(l: Linear, s: Linear, off: nat, u: Vec, p: Vec)
    requires IsRows(l, s, off) && |u| == |l.suh| && |p| == |s.suh| && p == u[off..off + |p|]
    ensures Product(l, u, off + |p|) == AddVec(Product(l, u, off), Product(s, p, |p|))
  {
    hide At, DotColumn, Product, AddVec;
    var whole, sum := Product(l, u, off + |p|), AddVec(Product(l, u, off), Product(s, p, |p|));
    forall o | 0 <= o < |l.svh| ensures whole[o] == sum[o] {
      PartialDot(l, s, off, u, p, o, |p|);
    }
    assert whole == sum;
  }

  lemma {:induction false} BlockSumAdds(h: Rotation, a: Vec, b: Vec, base: nat, col: nat, m: nat)
    requires h.Valid() && |a| == |b| && col < h.size && m <= h.size && base + m <= |a|
    ensures BlockSum(h, AddVec(a, b), base, col, m) == BlockSum(h, a, base, col, m) + BlockSum(h, b, base, col, m)
    decreases m
  {
    if m == 0 {
    } else {
      BlockSumAdds(h, a, b, base, col, m - 1);
      Distributes(h.t[m - 1][col], a[base + m - 1], b[base + m - 1]);
    }
  }

  lemma {:induction false} Distributes(t: real, x: real, y: real)
    ensures t * (x + y) == t * x + t * y
  {
  }

  lemma {:induction false} BlockSumZero(h: Rotation, n: nat, base: nat, col: nat, m: nat)
    requires h.Valid() && col < h.size && m <= h.size && base + m <= n
    ensures BlockSum(h, Zero(n), base, col, m) == 0.0
    decreases m
  {
    if m == 0 {
    } else {
      BlockSumZero(h, n, base, col, m - 1);
    }
  }

  lemma {:induction false} RotatedAtAdds(h: Rotation, a: Vec, b: Vec, i: nat)
    requires h.Valid() && |a| == |b| && |a| % h.size == 0 && i < |a|
    ensures RotatedAt(h, AddVec(a, b), i) == RotatedAt(h, a, i) + RotatedAt(h, b, i)
  {
    BlockInRange(h.size, |a|, i);
    hide BlockSum, BlockStart;
    BlockSumAdds(h, a, b, BlockStart(h.size, i), i % h.size, h.size);
  }

  lemma {:induction false} RotationAdds(h: Rotation, a: Vec, b: Vec)
    requires h.Valid() && |a| == |b| && |a| % h.size == 0
    ensures Rotated(h, AddVec(a, b)) == AddVec(Rotated(h, a), Rotated(h, b))
  {
    hide RotatedAt, Rotated, AddVec;
    var whole, sum := Rotated(h, AddVec(a, b)), AddVec(Rotated(h, a), Rotated(h, b));
    forall i | 0 <= i < |a| ensures whole[i] == sum[i] {
      RotatedAtAdds(h, a, b, i);
    }
    assert whole == sum;
  }

  lemma {:induction false} ScaleAdds(s: Vec, a: Vec, b: Vec)
    requires |s| == |a| == |b|
    ensures Scale(s, AddVec(a, b)) == AddVec(Scale(s, a), Scale(s, b))
  {
    hide Scale, AddVec;
    var whole, sum := Scale(s, AddVec(a, b)), AddVec(Scale(s, a), Scale(s, b));
    forall i | 0 <= i < |a| ensures whole[i] == sum[i] {
      Distributes(s[i], a[i], b[i]);
    }
    assert whole == sum;
  }

  lemma {:induction false} FinishAdds(h: Rotation, svh: Vec, a: Vec, b: Vec)
    requires h.Valid() && |svh| == |a| == |b| && |a| % h.size == 0
    ensures Finish(h, svh, AddVec(a, b)) == AddVec(Finish(h, svh, a), Finish(h, svh, b))
  {
    hide Scale, Rotated, AddVec;
    RotationAdds(h, a, b);
    ScaleAdds(svh, Rotated(h, a), Rotated(h, b));
  }

  lemma {:induction false} FinishZero(h: Rotation, svh: Vec)
    requires h.Valid() && |svh| % h.size == 0
    ensures Finish(h, svh, Zero(|svh|)) == Zero(|svh|)
  {
    hide Scale, Rotated, Zero, BlockSum, BlockStart;
    var v := Rotated(h, Zero(|svh|));
    forall i | 0 <= i < |svh| ensures v[i] == 0.0 {
      BlockInRange(h.size, |svh|, i);
      BlockSumZero(h, |svh|, BlockStart(h.size, i), i % h.size, h.size);
    }
    assert Scale(svh, v) == Zero(|svh|);
  }

  /** What one rank adds when its shard holds the rows after the first `off`. */
  lemma {:induction false} RowStep(h: Rotation, l: Linear, s: Linear, off: nat, a: Vec)
    requires Fits(h, l) && Fits(h, s) && IsRows(l, s, off) && off % h.size == 0 && |a| == |l.suh|
    ensures Finish(h, l.svh, Product(l, Start(h, l.suh, a), off + |s.suh|))
            == AddVec(Finish(h, l.svh, Product(l, Start(h, l.suh, a), off)), Forward(h, s, a[off..off + |s.suh|]))
  {
    hide Start, Finish, Product, At, AddVec;
    var u, p := Start(h, l.suh, a), a[off..off + |s.suh|];
    StartIsLocal(h, l.suh, a, off, |s.suh|);
    PartialProduct(l, s, off, u, Start(h, s.suh, p));
    FinishAdds(h, l.svh, Product(l, u, off), Product(s, Start(h, s.suh, p), |p|));
  }

  // A whole expert.

  /** The activation, any function of one gate entry and one up entry. */
  datatype Activation = Activation(f: (real, real) -> real)

  function Act(act: Activation, g: real, u: real): real {
    act.f(g, u)
  }

  /** The element-wise activation of gate and up. */
  function Activated(act: Activation, g: Vec, u: Vec): (a: Vec)
    requires |g| == |u|
    ensures |a| == |g| && forall i | 0 <= i < |g| :: a[i] == Act(act, g[i], u[i])
  {
    seq(|g|, i requires 0 <= i < |g| => Act(act, g[i], u[i]))
  }

  lemma {:induction false} ActivatedIsLocal(act: Activation, g: Vec, u: Vec, off: nat, w: nat)
    requires |g| == |u| && off + w <= |g|
    ensures Activated(act, g[off..off + w], u[off..off + w]) == Activated(act, g, u)[off..off + w]
  {
    hide Activated;
  }

  datatype Expert = Expert(gate: Linear, up: Linear, down: Linear)

  ghost predicate ExpertFits(h: Rotation, e: Expert) {
    && Fits(h, e.gate) && Fits(h, e.up) && Fits(h, e.down)
    && |e.gate.suh| == |e.up.suh| && |e.gate.svh| == |e.up.svh| == |e.down.suh|
  }

  /** The intermediate size splits into `tp` runs of `k` whole tiles, each a whole number of
      rotation blocks. */
  ghost predicate Divides(h: Rotation, e: Expert, tp: nat, k: nat) {
    ExpertFits(h, e) && tp >= 1 && |e.down.suh| == 16 * k * tp && (16 * k) % h.size == 0
  }

  /** The activation the down projection sees. */
  function Hidden(act: Activation, h: Rotation, e: Expert, x: Vec): (y: Vec)
    requires ExpertFits(h, e) && |x| == |e.gate.suh|
    ensures |y| == |e.down.suh|
  {
    Activated(act, Forward(h, e.gate, x), Forward(h, e.up, x))
  }

  function ExpertOutput(act: Activation, h: Rotation, e: Expert, x: Vec): (y: Vec)
    requires ExpertFits(h, e) && |x| == |e.gate.suh|
    ensures |y| == |e.down.svh|
  {
    Forward(h, e.down, Hidden(act, h, e, x))
  }

  /** An expert in stages: gate and up projections, the activation entry by entry, the down
      projection. */
  lemma {:induction false} ExpertStages(act: Activation, h: Rotation, e: Expert, x: Vec) returns (hidden: Vec)
    requires ExpertFits(h, e) && |x| == |e.gate.suh|
    ensures |hidden| == |e.down.suh| && ExpertOutput(act, h, e, x) == Forward(h, e.down, hidden)
    ensures var g, u := Forward(h, e.gate, x), Forward(h, e.up, x);
            forall i | 0 <= i < |hidden| :: hidden[i] == act.f(g[i], u[i])
  {
    hide Forward;
    hidden := Hidden(act, h, e, x);
  }

  function RankExpert(e: Expert, rank: nat, tp: nat): (r: Result<Expert>)
    requires e.gate.Valid() && e.up.Valid() && e.down.Valid() && (tp > 1 ==> rank < tp)
  {
    var gate, up, down := ShardCol(e.gate, rank, tp), ShardCol(e.up, rank, tp), ShardRow(e.down, rank, tp);
    if gate.Ok? && up.Ok? && down.Ok? then Ok(Expert(gate.value, up.value, down.value))
    else Error("size is not divisible by tp")
  }

  /** What a rank's expert is a part of. */
  ghost predicate IsPart(e: Expert, p: Expert, off: nat) {
    IsColumns(e.gate, p.gate, off) && IsColumns(e.up, p.up, off) && IsRows(e.down, p.down, off)
  }

  lemma {:induction false} RankExpertIsPart(h: Rotation, e: Expert, rank: nat, tp: nat, k: nat)
    requires Divides(h, e, tp, k) && rank < tp
    ensures RankExpert(e, rank, tp).Ok? && RankOffset(16 * k, rank) % h.size == 0
    ensures var p := RankExpert(e, rank, tp).value;
            ExpertFits(h, p) && |p.down.suh| == 16 * k && IsPart(e, p, RankOffset(16 * k, rank))
  {
    ColShardIsColumns(e.gate, rank, tp, k);
    ColShardIsColumns(e.up, rank, tp, k);
    RowShardIsRows(e.down, rank, tp, k);
    OffsetDivides(16 * k, rank, h.size);
    hide ShardCol, ShardRow, At, Linear.Valid;
  }

  /** The outputs of the first `n` ranks, each from its own shards alone, added up. */
  function RankOutputs(act: Activation, h: Rotation, e: Expert, x: Vec, tp: nat, ghost k: nat, n: nat): (y: Vec)
    requires Divides(h, e, tp, k) && |x| == |e.gate.suh| && n <= tp
    ensures |y| == |e.down.svh|
  {
    if n == 0 then Zero(|e.down.svh|)
    else
      RankExpertIsPart(h, e, n - 1, tp, k);
      AddVec(RankOutputs(act, h, e, x, tp, k, n - 1), ExpertOutput(act, h, RankExpert(e, n - 1, tp).value, x))
  }

  lemma {:induction false} HiddenOfPart(act: Activation, h: Rotation, e: Expert, p: Expert, off: nat, x: Vec)
    requires ExpertFits(h, e) && ExpertFits(h, p) && IsPart(e, p, off) && off % h.size == 0 && |x| == |e.gate.suh|
    ensures Hidden(act, h, p, x) == Hidden(act, h, e, x)[off..off + |p.down.suh|]
  {
    ColumnParallel(h, e.gate, p.gate, off, x);
    ColumnParallel(h, e.up, p.up, off, x);
    hide Forward, Activated, At, Linear.Valid;
    ActivatedIsLocal(act, Forward(h, e.gate, x), Forward(h, e.up, x), off, |p.down.suh|);
  }

  /** The unsharded down projection cut off after the first `m` rows. */
  function OutputUpTo(act: Activation, h: Rotation, e: Expert, x: Vec, m: nat): (y: Vec)
    requires ExpertFits(h, e) && |x| == |e.gate.suh| && m <= |e.down.suh|
    ensures |y| == |e.down.svh|
  {
    Finish(h, e.down.svh, Product(e.down, Start(h, e.down.suh, Hidden(act, h, e, x)), m))
  }

  lemma {:induction false} PartStep(act: Activation, h: Rotation, e: Expert, p: Expert, off: nat, x: Vec)
    requires ExpertFits(h, e) && ExpertFits(h, p) && IsPart(e, p, off) && off % h.size == 0 && |x| == |e.gate.suh|
    ensures AddVec(OutputUpTo(act, h, e, x, off), ExpertOutput(act, h, p, x))
            == OutputUpTo(act, h, e, x, off + |p.down.suh|)
  {
    hide Start, Finish, Product, Forward, Hidden, At, AddVec, IsColumns, Linear.Valid;
    HiddenOfPart(act, h, e, p, off, x);
    RowStep(h, e.down, p.down, off, Hidden(act, h, e, x));
  }

  lemma {:induction false} RankOutputsUnfold(
    act: Activation, h: Rotation, e: Expert, x: Vec, tp: nat, k: nat, n: nat, p: Expert)
    requires Divides(h, e, tp, k) && |x| == |e.gate.suh| && 0 < n <= tp && RankExpert(e, n - 1, tp) == Ok(p)
    ensures ExpertFits(h, p) && |p.gate.suh| == |x| && |p.down.svh| == |e.down.svh|
    ensures RankOutputs(act, h, e, x, tp, k, n)
            == AddVec(RankOutputs(act, h, e, x, tp, k, n - 1), ExpertOutput(act, h, p, x))
  {
    RankExpertIsPart(h, e, n - 1, tp, k);
    hide RankExpert, ExpertOutput, AddVec, ExpertFits, Linear.Valid, At;
  }

  lemma {:induction false} NoOutputs(act: Activation, h: Rotation, e: Expert, x: Vec, tp: nat, k: nat)
    requires Divides(h, e, tp, k) && |x| == |e.gate.suh|
    ensures RankOutputs(act, h, e, x, tp, k, 0) == Zero(|e.down.svh|)
  {
  }

  lemma {:induction false} RankOutputsAre(act: Activation, h: Rotation, e: Expert, x: Vec, tp: nat, k: nat, n: nat)
    requires Divides(h, e, tp, k) && |x| == |e.gate.suh| && n <= tp
    ensures RankOffset(16 * k, n) <= |e.down.suh|
    ensures RankOutputs(act, h, e, x, tp, k, n) == OutputUpTo(act, h, e, x, RankOffset(16 * k, n))
    decreases n
  {
    hide RankOutputs, RankExpert, OutputUpTo, ExpertOutput, AddVec, IsPart, Linear.Valid;
    if n == 0 {
      NoRows(act, h, e, x);
      NoOutputs(act, h, e, x, tp, k);
    } else {
      RankOutputsAre(act, h, e, x, tp, k, n - 1);
      RankExpertIsPart(h, e, n - 1, tp, k);
      var p, off := RankExpert(e, n - 1, tp).value, RankOffset(16 * k, n - 1);
      PartBounds(h, e, p, off);
      RankOutputsUnfold(act, h, e, x, tp, k, n, p);
      PartStep(act, h, e, p, off, x);
    }
  }

  lemma {:induction false} PartBounds(h: Rotation, e: Expert, p: Expert, off: nat)
    requires ExpertFits(h, e) && IsPart(e, p, off)
    ensures off + |p.down.suh| <= |e.down.suh|
  {
  }

  lemma {:induction false} NoRows(act: Activation, h: Rotation, e: Expert, x: Vec)
    requires ExpertFits(h, e) && |x| == |e.gate.suh|
    ensures OutputUpTo(act, h, e, x, 0) == Zero(|e.down.svh|)
  {
    hide Start, Finish, Hidden, At;
    assert Product(e.down, Start(h, e.down.suh, Hidden(act, h, e, x)), 0) == Zero(|e.down.svh|);
    FinishZero(h, e.down.svh);
  }

  /** Tensor parallelism is exact: whenever the intermediate size splits into `tp` runs of whole
      tiles and whole rotation blocks, no rank's load is refused and the ranks' expert outputs
      add up to the unsharded one. */
  lemma {:induction false} ExpertIsExact(act: Activation, h: Rotation, e: Expert, x: Vec, tp: nat, k: nat)
    requires Divides(h, e, tp, k) && |x| == |e.gate.suh|
    ensures RankOutputs(act, h, e, x, tp, k, tp) == ExpertOutput(act, h, e, x)
  {
    RankOutputsAre(act, h, e, x, tp, k, tp);
    RankOffsetIsMultiple(16 * k, tp);
    hide RankOutputs, Start, Finish, Product, Hidden, At;
  }
}
