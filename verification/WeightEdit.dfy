/** The abliteration of `o_proj` weights at load time, over the reals: the in-place
    orthogonalisation, the transplant of donor tensors, and the drift statistics, each against
    what it means for the unsharded weight. */
module WeightEdit {
  import opened Arith
  import opened Wrappers

  type Vec = seq<real>
  /** A weight by rows. */
  type Matrix = seq<seq<real>>

  ghost predicate Shape(m: Matrix, rows: nat, cols: nat) {
    |m| == rows && forall i | 0 <= i < rows :: |m[i]| == cols
  }

  /** What a stored weight holds. */
  ghost function View(a: array2<real>): (m: Matrix)
    reads a
    ensures Shape(m, a.Length0, a.Length1)
    ensures forall i, j | 0 <= i < a.Length0 && 0 <= j < a.Length1 :: m[i][j] == a[i, j]
  {
    seq(a.Length0, i requires 0 <= i < a.Length0 reads a =>
      seq(a.Length1, j requires 0 <= j < a.Length1 reads a => a[i, j]))
  }

  lemma {:induction false} SameMatrix(a: Matrix, b: Matrix, rows: nat, cols: nat)
    requires Shape(a, rows, cols) && Shape(b, rows, cols)
    requires forall i, j | 0 <= i < rows && 0 <= j < cols :: a[i][j] == b[i][j]
    ensures a == b
  {
    forall i | 0 <= i < rows ensures a[i] == b[i] {
    }
  }

  // Sums.

  function Times(x: real, y: real): real {
    x * y
  }

  function Dot(v: Vec, r: Vec, n: nat): real
    requires n <= |v| && n <= |r|
  {
    if n == 0 then 0.0 else Dot(v, r, n - 1) + Times(v[n - 1], r[n - 1])
  }

  /** Column `j` of the weight against the first `n` entries of `v`. */
  function ColumnDot(m: Matrix, v: Vec, j: nat, n: nat): real
    requires n <= |m| && n <= |v| && forall i | 0 <= i < |m| :: j < |m[i]|
  {
    if n == 0 then 0.0 else ColumnDot(m, v, j, n - 1) + Times(v[n - 1], m[n - 1][j])
  }

  /** The component is linear in `v`, and a `v` that is zero but at `i` picks out row `i`: that
      determines it. */
  lemma {:induction false} ColumnDotAdds(m: Matrix, u: Vec, v: Vec, sum: Vec, j: nat, n: nat)
    requires n <= |m| && n <= |u| && n <= |v| && n <= |sum| && forall i | 0 <= i < |m| :: j < |m[i]|
    requires forall i | 0 <= i < n :: sum[i] == u[i] + v[i]
    ensures ColumnDot(m, sum, j, n) == ColumnDot(m, u, j, n) + ColumnDot(m, v, j, n)
    decreases n
  {
    if n == 0 {
    } else {
      ColumnDotAdds(m, u, v, sum, j, n - 1);
      SumTimes(u[n - 1], v[n - 1], m[n - 1][j]);
    }
  }

  lemma {:induction false} SumTimes(a: real, b: real, k: real)
    ensures Times(a + b, k) == Times(a, k) + Times(b, k)
  {
  }

  lemma {:induction false} ColumnDotUnit(m: Matrix, v: Vec, j: nat, n: nat, i: nat)
    requires n <= |m| && n <= |v| && forall k | 0 <= k < |m| :: j < |m[k]|
    requires forall k | 0 <= k < n && k != i :: v[k] == 0.0
    ensures ColumnDot(m, v, j, n) == if i < n then v[i] * m[i][j] else 0.0
    decreases n
  {
    if n == 0 {
    } else {
      ColumnDotUnit(m, v, j, n - 1, i);
    }
  }

  /** The squared norm is the same sum, of a single column. */
  lemma {:induction false} DotIsColumnDot(v: Vec, r: Vec, m: Matrix, j: nat, n: nat)
    requires n <= |v| && n <= |r| && n <= |m| && forall i | 0 <= i < |m| :: j < |m[i]|
    requires forall i | 0 <= i < n :: m[i][j] == r[i]
    ensures Dot(v, r, n) == ColumnDot(m, v, j, n)
    decreases n
  {
    if n == 0 {
    } else {
      DotIsColumnDot(v, r, m, j, n - 1);
    }
  }

  /** The same component read from the stored weight. */
  function ArrayDot(a: array2<real>, v: Vec, j: nat, n: nat): (d: real)
    requires n <= a.Length0 && n <= |v| && j < a.Length1
    reads a
    ensures d == ColumnDot(View(a), v, j, n)
  {
    if n == 0 then 0.0 else ArrayDot(a, v, j, n - 1) + Times(v[n - 1], a[n - 1, j])
  }

  // The edit.

  /** What loading a direction checks of its norm. */
  ghost predicate Direction(r: Vec) {
    Dot(r, r, |r|) > 0.0
  }

  /** One entry after the rank-one update, `c` being its column's component along `r`. */
  function EditedEntry(w: real, ri: real, c: real, alpha: real, rr: real): real
    requires rr > 0.0
  {
    w - alpha * (ri * c) / rr
  }

  ghost function Edited(m: Matrix, r: Vec, alpha: real, cols: nat): (e: Matrix)
    requires Shape(m, |r|, cols) && Direction(r)
    ensures Shape(e, |r|, cols)
    ensures forall i, j | 0 <= i < |r| && 0 <= j < cols ::
              e[i][j] == EditedEntry(m[i][j], r[i], ColumnDot(m, r, j, |r|), alpha, Dot(r, r, |r|))
  {
    seq(|r|, i requires 0 <= i < |r| =>
      seq(cols, j requires 0 <= j < cols =>
        EditedEntry(m[i][j], r[i], ColumnDot(m, r, j, |r|), alpha, Dot(r, r, |r|))))
  }

  /** The rank-one update, entry by entry. */
  lemma {:induction false} EditedIsRankOne(m: Matrix, r: Vec, alpha: real, cols: nat, i: nat, j: nat)
    requires Shape(m, |r|, cols) && Direction(r) && i < |r| && j < cols
    ensures (m[i][j] - Edited(m, r, alpha, cols)[i][j]) * Dot(r, r, |r|) == alpha * r[i] * ColumnDot(m, r, j, |r|)
  {
    hide Edited, Dot, ColumnDot;
    var c, rr := ColumnDot(m, r, j, |r|), Dot(r, r, |r|);
    QuotientTimes(alpha * (r[i] * c), rr);
    assert alpha * (r[i] * c) == alpha * r[i] * c;
  }

  lemma {:induction false} EditedTerm(v: real, w: real, ri: real, c: real, alpha: real, rr: real, q: real)
    requires rr > 0.0 && q == alpha * c / rr
    ensures v * EditedEntry(w, ri, c, alpha, rr) == v * w - q * (v * ri)
  {
    assert alpha * (ri * c) == (alpha * c) * ri;
    assert (alpha * c) * ri / rr == q * ri;
    assert v * (q * ri) == q * (v * ri);
  }

  /** Every component of the edited weight, not only the one along `r`. */
  lemma {:induction false} EditedComponent(m: Matrix, r: Vec, alpha: real, cols: nat, v: Vec, j: nat, n: nat)
    requires Shape(m, |r|, cols) && Direction(r) && |v| == |r| && j < cols && n <= |r|
    ensures ColumnDot(Edited(m, r, alpha, cols), v, j, n)
            == ColumnDot(m, v, j, n) - Times(Removed(m, r, alpha, j), Dot(v, r, n))
    decreases n
  {
    hide EditedEntry, Edited, Removed, Times;
    var q := Removed(m, r, alpha, j);
    if n == 0 {
      TimesSum(q, 0.0, 0.0);
    } else {
      EditedComponent(m, r, alpha, cols, v, j, n - 1);
      RemovedTerm(m, r, alpha, j, v[n - 1], m[n - 1][j], r[n - 1]);
      TimesSum(q, Dot(v, r, n - 1), Times(v[n - 1], r[n - 1]));
    }
  }

  lemma {:induction false} TimesSum(k: real, a: real, b: real)
    ensures Times(k, a + b) == Times(k, a) + Times(k, b) && Times(k, 0.0) == 0.0
  {
  }

  /** How much of the direction the edit takes out of column `j`. */
  function Removed(m: Matrix, r: Vec, alpha: real, j: nat): real
    requires |m| == |r| && Direction(r) && forall i | 0 <= i < |m| :: j < |m[i]|
  {
    alpha * ColumnDot(m, r, j, |r|) / Dot(r, r, |r|)
  }

  lemma {:induction false} RemovedTerm(m: Matrix, r: Vec, alpha: real, j: nat, v: real, w: real, ri: real)
    requires |m| == |r| && Direction(r) && forall i | 0 <= i < |m| :: j < |m[i]|
    ensures Times(v, EditedEntry(w, ri, ColumnDot(m, r, j, |r|), alpha, Dot(r, r, |r|)))
            == Times(v, w) - Times(Removed(m, r, alpha, j), Times(v, ri))
  {
    var c, rr := ColumnDot(m, r, j, |r|), Dot(r, r, |r|);
    hide ColumnDot, Dot, EditedEntry;
    EditedTerm(v, w, ri, c, alpha, rr, alpha * c / rr);
  }

  /** The component along the direction is scaled by exactly `1 - alpha`. */
  lemma {:induction false} ComponentIsScaled(m: Matrix, r: Vec, alpha: real, cols: nat, j: nat)
    requires Shape(m, |r|, cols) && Direction(r) && j < cols
    ensures ColumnDot(Edited(m, r, alpha, cols), r, j, |r|) == (1.0 - alpha) * ColumnDot(m, r, j, |r|)
  {
    hide ColumnDot, Dot, Edited;
    EditedComponent(m, r, alpha, cols, r, j, |r|);
    var c, rr := ColumnDot(m, r, j, |r|), Dot(r, r, |r|);
    QuotientTimes(alpha * c, rr);
    Complement(alpha, c);
  }

  lemma {:induction false} QuotientTimes(x: real, y: real)
    requires y != 0.0
    ensures x / y * y == x
  {
  }

  lemma {:induction false} Complement(alpha: real, c: real)
    ensures c - alpha * c == (1.0 - alpha) * c
  {
  }

  /** Anything orthogonal to the direction sees the weight unchanged. */
  lemma {:induction false} OrthogonalIsUnchanged(m: Matrix, r: Vec, alpha: real, cols: nat, v: Vec, j: nat)
    requires Shape(m, |r|, cols) && Direction(r) && |v| == |r| && j < cols && Dot(v, r, |r|) == 0.0
    ensures ColumnDot(Edited(m, r, alpha, cols), v, j, |r|) == ColumnDot(m, v, j, |r|)
  {
    EditedComponent(m, r, alpha, cols, v, j, |r|);
  }

  lemma {:induction false} TwoTerms(w: real, ri: real, c: real, c2: real, a: real, b: real, rr: real)
    requires rr > 0.0 && c2 == (1.0 - a) * c
    ensures EditedEntry(EditedEntry(w, ri, c, a, rr), ri, c2, b, rr)
            == EditedEntry(w, ri, c, a + b - a * b, rr)
  {
    var t := ri * c;
    assert ri * ((1.0 - a) * c) == (1.0 - a) * t;
    assert b * ((1.0 - a) * t) == (b - a * b) * t;
    assert a * t / rr + (b - a * b) * t / rr == (a * t + (b - a * b) * t) / rr;
    assert a * t + (b - a * b) * t == (a + b - a * b) * t;
  }

  /** Editing twice is one edit of strength `a + b - a * b`; in particular a full-strength edit
      absorbs every other and editing again changes nothing. */
  lemma {:induction false} EditsCompose(m: Matrix, r: Vec, a: real, b: real, cols: nat)
    requires Shape(m, |r|, cols) && Direction(r)
    ensures Edited(Edited(m, r, a, cols), r, b, cols) == Edited(m, r, a + b - a * b, cols)
  {
    hide EditedEntry, Edited;
    var once := Edited(m, r, a, cols);
    forall i, j | 0 <= i < |r| && 0 <= j < cols
      ensures Edited(once, r, b, cols)[i][j] == Edited(m, r, a + b - a * b, cols)[i][j]
    {
      EntryTwice(m, r, a, b, cols, i, j);
    }
    SameMatrix(Edited(once, r, b, cols), Edited(m, r, a + b - a * b, cols), |r|, cols);
  }

  lemma {:induction false} EntryTwice(m: Matrix, r: Vec, a: real, b: real, cols: nat, i: nat, j: nat)
    requires Shape(m, |r|, cols) && Direction(r) && i < |r| && j < cols
    ensures Edited(Edited(m, r, a, cols), r, b, cols)[i][j] == Edited(m, r, a + b - a * b, cols)[i][j]
  {
    hide EditedEntry, Edited, ColumnDot, Dot;
    var c, rr := ColumnDot(m, r, j, |r|), Dot(r, r, |r|);
    var once := Edited(m, r, a, cols);
    ComponentIsScaled(m, r, a, cols, j);
    var c2 := ColumnDot(once, r, j, |r|);
    assert once[i][j] == EditedEntry(m[i][j], r[i], c, a, rr);
    assert Edited(once, r, b, cols)[i][j] == EditedEntry(once[i][j], r[i], c2, b, rr);
    TwoTerms(m[i][j], r[i], c, c2, a, b, rr);
  }

  // Sharding by input columns.

  /** `w` columns of the weight, from `off` on. */
  ghost function Columns(m: Matrix, off: nat, w: nat): (s: Matrix)
    requires forall i | 0 <= i < |m| :: off + w <= |m[i]|
    ensures Shape(s, |m|, w)
    ensures forall i, j | 0 <= i < |m| && 0 <= j < w :: s[i][j] == m[i][off + j]
  {
    seq(|m|, i requires 0 <= i < |m| => m[i][off..off + w])
  }

  lemma {:induction false} SameComponent(m: Matrix, off: nat, w: nat, v: Vec, j: nat, n: nat)
    requires (forall i | 0 <= i < |m| :: off + w <= |m[i]|) && j < w && n <= |m| && n <= |v|
    ensures ColumnDot(Columns(m, off, w), v, j, n) == ColumnDot(m, v, off + j, n)
    decreases n
  {
    if n == 0 {
    } else {
      SameComponent(m, off, w, v, j, n - 1);
    }
  }

  /** The edit of one rank's columns is that rank's columns of the edit. */
  lemma {:induction false} EditIsLocal(m: Matrix, r: Vec, alpha: real, cols: nat, off: nat, w: nat)
    requires Shape(m, |r|, cols) && Direction(r) && off + w <= cols
    ensures Edited(Columns(m, off, w), r, alpha, w) == Columns(Edited(m, r, alpha, cols), off, w)
  {
    hide EditedEntry, Columns;
    var s, whole := Columns(m, off, w), Edited(m, r, alpha, cols);
    forall i, j | 0 <= i < |r| && 0 <= j < w
      ensures Edited(s, r, alpha, w)[i][j] == Columns(whole, off, w)[i][j]
    {
      SameComponent(m, off, w, r, j, |r|);
    }
    hide Edited;
    SameMatrix(Edited(s, r, alpha, w), Columns(whole, off, w), |r|, w);
  }

  /** Two matrices side by side. */
  ghost function Beside(a: Matrix, b: Matrix): (c: Matrix)
    requires |a| == |b|
    ensures |c| == |a| && forall i | 0 <= i < |a| :: c[i] == a[i] + b[i]
  {
    seq(|a|, i requires 0 <= i < |a| => a[i] + b[i])
  }

  /** The first `n` ranks' edited shards side by side, every rank editing its own columns. */
  ghost function EditedShards(m: Matrix, r: Vec, alpha: real, cols: nat, w: nat, n: nat): (s: Matrix)
    requires Shape(m, |r|, cols) && Direction(r) && RankOffset(w, n) <= cols
    ensures |s| == |r|
    decreases n
  {
    if n == 0 then seq(|r|, _ => [])
    else
      Beside(EditedShards(m, r, alpha, cols, w, n - 1), Edited(Columns(m, RankOffset(w, n - 1), w), r, alpha, w))
  }

  lemma {:induction false} BesideColumns(m: Matrix, rows: nat, cols: nat, off: nat, w: nat)
    requires Shape(m, rows, cols) && off + w <= cols
    ensures Beside(Columns(m, 0, off), Columns(m, off, w)) == Columns(m, 0, off + w)
  {
    var s := Beside(Columns(m, 0, off), Columns(m, off, w));
    forall i | 0 <= i < rows ensures s[i] == Columns(m, 0, off + w)[i] {
    }
  }

  lemma {:induction false} EditedShardsAre(m: Matrix, r: Vec, alpha: real, cols: nat, w: nat, n: nat)
    requires Shape(m, |r|, cols) && Direction(r) && RankOffset(w, n) <= cols
    ensures EditedShards(m, r, alpha, cols, w, n) == Columns(Edited(m, r, alpha, cols), 0, RankOffset(w, n))
    decreases n
  {
    hide Edited, Beside;
    var whole := Edited(m, r, alpha, cols);
    if n == 0 {
      SameMatrix(EditedShards(m, r, alpha, cols, w, 0), Columns(whole, 0, 0), |r|, 0);
    } else {
      hide Columns;
      EditedShardsAre(m, r, alpha, cols, w, n - 1);
      EditIsLocal(m, r, alpha, cols, RankOffset(w, n - 1), w);
      BesideColumns(whole, |r|, cols, RankOffset(w, n - 1), w);
    }
  }

  lemma {:induction false} AllColumns(m: Matrix, rows: nat, cols: nat)
    requires Shape(m, rows, cols)
    ensures Columns(m, 0, cols) == m
  {
    SameMatrix(Columns(m, 0, cols), m, rows, cols);
  }

  /** The edit commutes with sharding: the ranks' own edits side by side are the edit of the
      whole weight, for any number of ranks. */
  lemma {:induction false} EditCommutesWithSharding(m: Matrix, r: Vec, alpha: real, w: nat, world: nat)
    requires Shape(m, |r|, w * world) && Direction(r)
    ensures RankOffset(w, world) == w * world
    ensures EditedShards(m, r, alpha, w * world, w, world) == Edited(m, r, alpha, w * world)
  {
    RankOffsetIsMultiple(w, world);
    EditedShardsAre(m, r, alpha, w * world, w, world);
    AllColumns(Edited(m, r, alpha, w * world), |r|, w * world);
  }

  // The edit in place.

  /** A module's `weight` attribute. */
  datatype Weight = Missing | OtherRank(dims: nat) | Stored(data: array2<real>)

  datatype Report = Skipped(reason: string) | EditedReport(rows: nat, cols: nat, residualMax: real)

  function Abs(x: real): real {
    if x < 0.0 then -x else x
  }

  function Larger(x: real, y: real): real {
    if y > x then y else x
  }

  /** The largest of `|r . W|` over the first `n` columns. */
  function Residual(m: Matrix, r: Vec, n: nat): (d: real)
    requires |r| == |m| && forall i | 0 <= i < |m| :: n <= |m[i]|
  {
    if n == 0 then 0.0 else Larger(Residual(m, r, n - 1), Abs(ColumnDot(m, r, n - 1, |r|)))
  }

  /** It is at least every column's component, of either sign, and one of them. */
  lemma {:induction false} ResidualIsLargest(m: Matrix, r: Vec, n: nat)
    requires |r| == |m| && forall i | 0 <= i < |m| :: n <= |m[i]|
    ensures forall j | 0 <= j < n :: -Residual(m, r, n) <= ColumnDot(m, r, j, |r|) <= Residual(m, r, n)
    ensures n > 0 ==> exists j | 0 <= j < n :: Residual(m, r, n) in {ColumnDot(m, r, j, |r|), -ColumnDot(m, r, j, |r|)}
    decreases n
  {
    hide ColumnDot;
    if n == 0 {
    } else {
      ResidualIsLargest(m, r, n - 1);
      var last := ColumnDot(m, r, n - 1, |r|);
      if Residual(m, r, n) == Abs(last) {
      } else {
        assert n - 1 > 0;
      }
    }
  }

  /** The reported residual is the old one scaled by `|1 - alpha|`: a full-strength edit leaves
      none. */
  lemma {:induction false} ResidualIsScaled(m: Matrix, r: Vec, alpha: real, cols: nat, n: nat)
    requires Shape(m, |r|, cols) && Direction(r) && n <= cols
    ensures Residual(Edited(m, r, alpha, cols), r, n) == Abs(1.0 - alpha) * Residual(m, r, n)
    decreases n
  {
    hide EditedEntry, Edited, Abs, Larger, Dot, ColumnDot;
    if n == 0 {
    } else {
      ResidualIsScaled(m, r, alpha, cols, n - 1);
      ComponentIsScaled(m, r, alpha, cols, n - 1);
      var e := Edited(m, r, alpha, cols);
      var c, ec := ColumnDot(m, r, n - 1, |r|), ColumnDot(e, r, n - 1, |r|);
      AbsOfProduct(ec, 1.0 - alpha, c);
      ScaledLarger(Abs(1.0 - alpha), Residual(m, r, n - 1), Abs(c), Residual(e, r, n - 1), Abs(ec));
    }
  }

  lemma {:induction false} ProductSign(a: real, b: real)
    ensures a >= 0.0 && b >= 0.0 ==> a * b >= 0.0
  {
  }

  lemma {:induction false} ProductOfNegations(a: real, b: real)
    ensures (-a) * b == -(a * b) && a * (-b) == -(a * b) && (-a) * (-b) == a * b
  {
  }

  lemma {:induction false} ProductOfDifference(k: real, a: real, b: real)
    ensures k * (a - b) == k * a - k * b
  {
  }

  lemma {:induction false} AbsOfProduct(x: real, a: real, b: real)
    requires x == a * b
    ensures Abs(x) == Abs(a) * Abs(b) && Abs(a) >= 0.0
  {
    ProductSign(Abs(a), Abs(b));
    ProductOfNegations(a, b);
  }

  lemma {:induction false} ScaledLarger(k: real, x: real, y: real, kx: real, ky: real)
    requires k >= 0.0 && kx == k * x && ky == k * y
    ensures Larger(kx, ky) == k * Larger(x, y)
  {
    ProductOfDifference(k, y, x);
    ProductOfDifference(k, x, y);
    if y > x {
      ProductSign(k, y - x);
    } else {
      ProductSign(k, x - y);
    }
  }

  method ApplyToOProj(weight: Weight, r: Vec, alpha: real) returns (report: Report)
    requires Direction(r)
    modifies if weight.Stored? then {weight.data} else {}
    ensures report.EditedReport? <==> weight.Stored? && weight.data.Length0 == |r|
    ensures report.EditedReport? ==>
              && View(weight.data) == Edited(old(View(weight.data)), r, alpha, weight.data.Length1)
              && report.rows == |r| && report.cols == weight.data.Length1
              && report.residualMax == Residual(View(weight.data), r, weight.data.Length1)
    ensures report.Skipped? && weight.Stored? ==> View(weight.data) == old(View(weight.data))
  {
    hide View, Edited, EditedEntry, Larger, Abs, ArrayDot, Dot, ColumnDot;
    if !weight.Stored? {
      return Skipped("no 2-D .weight");
    }
    var w := weight.data;
    if w.Length0 != |r| {
      return Skipped("out_features != direction dim");
    }
    var rw := seq(w.Length1, j requires 0 <= j < w.Length1 reads w => ArrayDot(w, r, j, |r|));
    var rr := Dot(r, r, |r|);
    ghost var was := View(w);
    forall i, j | 0 <= i < w.Length0 && 0 <= j < w.Length1 {
      w[i, j] := EditedEntry(w[i, j], r[i], rw[j], alpha, rr);
    }
    SameMatrix(View(w), Edited(was, r, alpha, w.Length1), |r|, w.Length1);
    var residual := 0.0;
    for j := 0 to w.Length1
      invariant residual == Residual(View(w), r, j)
    {
      residual := Larger(residual, Abs(ArrayDot(w, r, j, |r|)));
    }
    return EditedReport(w.Length0, w.Length1, residual);
  }

  // The transplant.

  /** Every rank's copy of its slice, side by side. */
  ghost function DonorShards(donor: Matrix, cols: nat, w: nat, n: nat): (s: Matrix)
    requires Shape(donor, |donor|, cols) && RankOffset(w, n) <= cols
    ensures |s| == |donor|
    decreases n
  {
    if n == 0 then seq(|donor|, _ => [])
    else Beside(DonorShards(donor, cols, w, n - 1), Columns(donor, RankOffset(w, n - 1), w))
  }

  lemma {:induction false} DonorShardsAre(donor: Matrix, cols: nat, w: nat, n: nat)
    requires Shape(donor, |donor|, cols) && RankOffset(w, n) <= cols
    ensures DonorShards(donor, cols, w, n) == Columns(donor, 0, RankOffset(w, n))
    decreases n
  {
    if n == 0 {
      SameMatrix(DonorShards(donor, cols, w, 0), Columns(donor, 0, 0), |donor|, 0);
    } else {
      hide Columns, Beside;
      DonorShardsAre(donor, cols, w, n - 1);
      BesideColumns(donor, |donor|, cols, RankOffset(w, n - 1), w);
    }
  }

  /** After every rank's transplant the ranks together hold the donor. */
  lemma {:induction false} TransplantRestoresDonor(donor: Matrix, w: nat, world: nat)
    requires Shape(donor, |donor|, w * world)
    ensures RankOffset(w, world) == w * world && DonorShards(donor, w * world, w, world) == donor
  {
    RankOffsetIsMultiple(w, world);
    DonorShardsAre(donor, w * world, w, world);
    AllColumns(donor, |donor|, w * world);
  }

  lemma {:induction false} SliceInRange(w: nat, rank: nat, world: nat)
    requires rank < world
    ensures RankOffset(w, rank) == rank * w && rank * w + w <= w * world
  {
    RankOffsetIsMultiple(w, rank);
    MulMonotone(rank + 1, world, w);
  }

  /** One rank's transplant into one module: a mismatched shape is refused and leaves the weight
      alone; otherwise the weight becomes the rank's slice of the donor, and the statistics are
      those of the weight it replaced. */
  method Transplant(weight: Weight, donor: Matrix, donorCols: nat, rank: nat, world: nat, sqrt: SquareRoot)
    returns (report: Result<Deltas>)
    requires Shape(donor, |donor|, donorCols) && rank < world
    modifies if weight.Stored? then {weight.data} else {}
    ensures report.Ok? <==>
            weight.Stored? && |donor| == weight.data.Length0 && donorCols == weight.data.Length1 * world
    ensures report.Ok? ==>
              var w := weight.data.Length1;
              && RankOffset(w, rank) + w <= donorCols
              && View(weight.data) == Columns(donor, RankOffset(w, rank), w)
              && report.value == DeltasOf(sqrt, Drift(old(View(weight.data)), View(weight.data), w, |donor|))
    ensures report.Error? && weight.Stored? ==> View(weight.data) == old(View(weight.data))
  {
    if !weight.Stored? {
      return Error("no 2-D .weight");
    }
    var w := weight.data;
    if |donor| != w.Length0 || donorCols != w.Length1 * world {
      return Error("shape does not match donor");
    }
    SliceInRange(w.Length1, rank, world);
    var off := rank * w.Length1;
    ghost var was := View(w);
    var shard := seq(|donor|, i requires 0 <= i < |donor| =>
      if world == 1 then donor[i] else donor[i][off..off + w.Length1]);
    SameMatrix(shard, Columns(donor, RankOffset(w.Length1, rank), w.Length1), |donor|, w.Length1);
    var deltas := DeltaStats(w, shard, 256, sqrt);
    forall i, j | 0 <= i < w.Length0 && 0 <= j < w.Length1 {
      w[i, j] := shard[i][j];
    }
    SameMatrix(View(w), shard, |donor|, w.Length1);
    return Ok(deltas);
  }

  // Drift statistics.

  datatype Stats = Stats(sqD: real, sqW: real, absD: real, absW: real)

  function Square(x: real): real {
    x * x
  }

  /** The four sums over the first `n` columns of one row. */
  function RowDrift(w: Vec, s: Vec, n: nat): Stats
    requires n <= |w| && n <= |s|
  {
    if n == 0 then Stats(0.0, 0.0, 0.0, 0.0)
    else Plus(RowDrift(w, s, n - 1), EntryDrift(w[n - 1], s[n - 1]))
  }

  function EntryDrift(w: real, s: real): Stats {
    Stats(Square(s - w), Square(w), Abs(s - w), Abs(w))
  }

  function Plus(a: Stats, b: Stats): Stats {
    Stats(a.sqD + b.sqD, a.sqW + b.sqW, a.absD + b.absD, a.absW + b.absW)
  }

  /** The four sums over the first `n` rows. */
  ghost function Drift(w: Matrix, s: Matrix, cols: nat, n: nat): Stats
    requires Shape(w, |w|, cols) && Shape(s, |w|, cols) && n <= |w|
  {
    if n == 0 then Stats(0.0, 0.0, 0.0, 0.0)
    else Plus(Drift(w, s, cols, n - 1), RowDrift(w[n - 1], s[n - 1], cols))
  }

  function RowAt(a: array2<real>, i: nat): (row: Vec)
    requires i < a.Length0
    reads a
    ensures row == View(a)[i]
  {
    seq(a.Length1, j requires 0 <= j < a.Length1 reads a => a[i, j])
  }

  /** The four sums over rows `lo` to `hi`, as one block computes them. */
  function BlockDrift(a: array2<real>, s: Matrix, lo: nat, hi: nat): Stats
    requires lo <= hi <= a.Length0 && Shape(s, a.Length0, a.Length1)
    reads a
    decreases hi
  {
    if lo == hi then Stats(0.0, 0.0, 0.0, 0.0)
    else Plus(BlockDrift(a, s, lo, hi - 1), RowDrift(RowAt(a, hi - 1), s[hi - 1], a.Length1))
  }

  lemma {:induction false} BlockExtendsDrift(a: array2<real>, s: Matrix, lo: nat, hi: nat)
    requires lo <= hi <= a.Length0 && Shape(s, a.Length0, a.Length1)
    ensures Plus(Drift(View(a), s, a.Length1, lo), BlockDrift(a, s, lo, hi)) == Drift(View(a), s, a.Length1, hi)
    decreases hi
  {
    hide RowDrift, View, RowAt;
    if lo == hi {
    } else {
      BlockExtendsDrift(a, s, lo, hi - 1);
    }
  }

  /** The square root, given by what it is. */
  datatype SquareRoot = SquareRoot(f: real -> real) {
    ghost predicate Valid() {
      forall x: real | x >= 0.0 :: Of(x) >= 0.0 && Square(Of(x)) == x
    }

    function Of(x: real): real {
      f(x)
    }
  }

  const EPSILON := 0.000000001

  datatype Deltas = Deltas(relL2: real, meanRel: real)

  /** The two relative drifts the program reports. */
  function DeltasOf(sqrt: SquareRoot, t: Stats): Deltas {
    Deltas(Ratio(sqrt.Of(t.sqD), sqrt.Of(t.sqW)), Ratio(t.absD, t.absW))
  }

  function Ratio(x: real, y: real): real {
    x / Floored(y)
  }

  function Floored(x: real): (y: real)
    ensures y > 0.0
  {
    Larger(x, EPSILON)
  }

  /** The two drifts: the first is the root of the squared differences over that of the squared
      weights, the second the differences' absolute sum over the weights', neither divisor below a
      billionth. */
  lemma {:induction false} DeltasAreRatios(sqrt: SquareRoot, t: Stats)
    ensures var d, norm := DeltasOf(sqrt, t), sqrt.f(t.sqW);
            && d.relL2 * (if norm >= 0.000000001 then norm else 0.000000001) == sqrt.f(t.sqD)
            && d.meanRel * (if t.absW >= 0.000000001 then t.absW else 0.000000001) == t.absD
  {
    QuotientTimes(sqrt.f(t.sqD), Floored(sqrt.f(t.sqW)));
    QuotientTimes(t.absD, Floored(t.absW));
  }

  /** The four sums of weights and slices that are zero are zero, and changing one entry of both
      moves each sum by that entry's own square or absolute value: that determines them. */
  lemma {:induction false} DriftOfNothing(w: Matrix, s: Matrix, cols: nat, n: nat)
    requires Shape(w, |w|, cols) && Shape(s, |w|, cols) && n <= |w|
    requires forall i, j | 0 <= i < |w| && 0 <= j < cols :: w[i][j] == 0.0 == s[i][j]
    ensures Drift(w, s, cols, n) == Stats(0.0, 0.0, 0.0, 0.0)
    decreases n
  {
    hide RowDrift;
    if n == 0 {
    } else {
      DriftOfNothing(w, s, cols, n - 1);
      RowOfNothing(w[n - 1], s[n - 1], cols);
    }
  }

  lemma {:induction false} RowOfNothing(w: Vec, s: Vec, n: nat)
    requires n <= |w| && n <= |s| && forall j | 0 <= j < n :: w[j] == 0.0 == s[j]
    ensures RowDrift(w, s, n) == Stats(0.0, 0.0, 0.0, 0.0)
  {
    if n == 0 {
    } else {
      RowOfNothing(w, s, n - 1);
      assert 0.0 * 0.0 == 0.0;
    }
  }

  /** From `a` to `b` the four sums moved by an entry `w` of the weight and `s` of the slice becoming
      `w'` and `s'`. */
  ghost predicate Moved(a: Stats, b: Stats, w: real, s: real, w': real, s': real) {
    && b.sqD - a.sqD == (s' - w') * (s' - w') - (s - w) * (s - w)
    && b.sqW - a.sqW == w' * w' - w * w
    && b.absD - a.absD == (if s' >= w' then s' - w' else w' - s') - (if s >= w then s - w else w - s)
    && b.absW - a.absW == (if w' >= 0.0 then w' else -w') - if w >= 0.0 then w else -w
  }

  lemma {:induction false} RowDriftMoves(w: Vec, s: Vec, w': Vec, s': Vec, n: nat, j: nat)
    requires n <= |w| == |s| == |w'| == |s'| && j < |w|
    requires forall k | 0 <= k < n && k != j :: w'[k] == w[k] && s'[k] == s[k]
    ensures if j < n then Moved(RowDrift(w, s, n), RowDrift(w', s', n), w[j], s[j], w'[j], s'[j])
            else RowDrift(w', s', n) == RowDrift(w, s, n)
    decreases n
  {
    hide EntryDrift, Moved, Plus;
    if n == 0 {
    } else {
      RowDriftMoves(w, s, w', s', n - 1, j);
      if j == n - 1 {
        EntryMoves(RowDrift(w, s, n - 1), w[j], s[j], w'[j], s'[j]);
      } else if j < n {
        MovedAlike(RowDrift(w, s, n - 1), RowDrift(w', s', n - 1), EntryDrift(w[n - 1], s[n - 1]),
                   w[j], s[j], w'[j], s'[j]);
      }
    }
  }

  lemma {:induction false} EntryMoves(a: Stats, w: real, s: real, w': real, s': real)
    ensures Moved(Plus(a, EntryDrift(w, s)), Plus(a, EntryDrift(w', s')), w, s, w', s')
  {
  }

  lemma {:induction false} MovedAlike(a: Stats, b: Stats, e: Stats, w: real, s: real, w': real, s': real)
    requires Moved(a, b, w, s, w', s')
    ensures Moved(Plus(a, e), Plus(b, e), w, s, w', s')
  {
  }

  lemma {:induction false} DriftMoves(w: Matrix, s: Matrix, w': Matrix, s': Matrix, cols: nat, n: nat, i: nat, j: nat)
    requires Shape(w, |w|, cols) && Shape(s, |w|, cols) && Shape(w', |w|, cols) && Shape(s', |w|, cols)
    requires n <= |w| && i < |w| && j < cols
    requires forall k, c | 0 <= k < |w| && 0 <= c < cols && (k != i || c != j) ::
               w'[k][c] == w[k][c] && s'[k][c] == s[k][c]
    ensures if i < n then Moved(Drift(w, s, cols, n), Drift(w', s', cols, n), w[i][j], s[i][j], w'[i][j], s'[i][j])
            else Drift(w', s', cols, n) == Drift(w, s, cols, n)
    decreases n
  {
    hide RowDrift, Moved, Plus;
    if n == 0 {
    } else {
      DriftMoves(w, s, w', s', cols, n - 1, i, j);
      if n - 1 == i {
        RowDriftMoves(w[i], s[i], w'[i], s'[i], cols, j);
        MovedBehind(Drift(w, s, cols, i), RowDrift(w[i], s[i], cols), RowDrift(w'[i], s'[i], cols),
                    w[i][j], s[i][j], w'[i][j], s'[i][j]);
      } else if i < n {
        assert w'[n - 1] == w[n - 1] && s'[n - 1] == s[n - 1];
        MovedAlike(Drift(w, s, cols, n - 1), Drift(w', s', cols, n - 1), RowDrift(w[n - 1], s[n - 1], cols),
                   w[i][j], s[i][j], w'[i][j], s'[i][j]);
      } else {
        assert w'[n - 1] == w[n - 1] && s'[n - 1] == s[n - 1];
      }
    }
  }

  lemma {:induction false} MovedBehind(e: Stats, a: Stats, b: Stats, w: real, s: real, w': real, s': real)
    requires Moved(a, b, w, s, w', s')
    ensures Moved(Plus(e, a), Plus(e, b), w, s, w', s')
  {
  }

  lemma {:induction false} SquareIsZero(d: real)
    ensures Square(d) >= 0.0 && (Square(d) == 0.0 <==> d == 0.0)
  {
    if d == 0.0 {
      assert d * d == 0.0 * 0.0;
    } else {
      TimesQuotient(d, d);
      QuotientIsZero(d * d, d);
    }
  }

  lemma {:induction false} TimesQuotient(x: real, y: real)
    requires y != 0.0
    ensures x * y / y == x
  {
  }

  lemma {:induction false} RowDriftIsZeroIff(w: Vec, s: Vec, n: nat)
    requires n <= |w| && n <= |s|
    ensures var t := RowDrift(w, s, n);
            && t.sqD >= 0.0 && t.absD >= 0.0
            && (t.sqD == 0.0 <==> s[..n] == w[..n]) && (t.absD == 0.0 <==> s[..n] == w[..n])
    decreases n
  {
    hide Square;
    if n == 0 {
    } else {
      RowDriftIsZeroIff(w, s, n - 1);
      SquareIsZero(s[n - 1] - w[n - 1]);
      assert s[..n] == s[..n - 1] + [s[n - 1]] && w[..n] == w[..n - 1] + [w[n - 1]];
    }
  }

  lemma {:induction false} DriftIsZeroIff(w: Matrix, s: Matrix, cols: nat, n: nat)
    requires Shape(w, |w|, cols) && Shape(s, |w|, cols) && n <= |w|
    ensures var t := Drift(w, s, cols, n);
            && t.sqD >= 0.0 && t.absD >= 0.0
            && (t.sqD == 0.0 <==> s[..n] == w[..n]) && (t.absD == 0.0 <==> s[..n] == w[..n])
    decreases n
  {
    hide RowDrift;
    if n == 0 {
    } else {
      DriftIsZeroIff(w, s, cols, n - 1);
      RowDriftIsZeroIff(w[n - 1], s[n - 1], cols);
      assert w[n - 1][..cols] == w[n - 1] && s[n - 1][..cols] == s[n - 1];
      assert s[..n] == s[..n - 1] + [s[n - 1]] && w[..n] == w[..n - 1] + [w[n - 1]];
    }
  }

  lemma {:induction false} QuotientIsZero(x: real, y: real)
    requires y != 0.0
    ensures x / y == 0.0 <==> x == 0.0
  {
    QuotientTimes(x, y);
  }

  lemma {:induction false} RatioIsZero(x: real, y: real)
    ensures Ratio(x, y) == 0.0 <==> x == 0.0
  {
    QuotientIsZero(x, Floored(y));
  }

  /** Each reported drift is zero exactly when the donor's slice is the weight it replaces. */
  lemma {:induction false} DeltasAreZeroIff(sqrt: SquareRoot, w: Matrix, s: Matrix, cols: nat)
    requires sqrt.Valid() && Shape(w, |w|, cols) && Shape(s, |w|, cols)
    ensures var d := DeltasOf(sqrt, Drift(w, s, cols, |w|));
            (d.relL2 == 0.0 <==> s == w) && (d.meanRel == 0.0 <==> s == w)
  {
    hide Square, Ratio, Drift, SquareRoot.Of;
    var t := Drift(w, s, cols, |w|);
    DriftIsZeroIff(w, s, cols, |w|);
    assert w[..|w|] == w && s[..|w|] == s;
    SquareIsZero(sqrt.Of(t.sqD));
    RatioIsZero(sqrt.Of(t.sqD), sqrt.Of(t.sqW));
    RatioIsZero(t.absD, t.absW);
  }

  /** The statistics are those of the whole weight whatever the block height. */
  method DeltaStats(w: array2<real>, shard: Matrix, rows: nat, sqrt: SquareRoot) returns (deltas: Deltas)
    requires rows > 0 && Shape(shard, w.Length0, w.Length1)
    ensures deltas == DeltasOf(sqrt, Drift(View(w), shard, w.Length1, w.Length0))
  {
    hide View, Drift, BlockDrift;
    var stats := Stats(0.0, 0.0, 0.0, 0.0);
    NoDrift(View(w), shard, w.Length1);
    var i := 0;
    while i < w.Length0
      invariant stats == Drift(View(w), shard, w.Length1, Min(i, w.Length0))
    {
      var end := Min(i + rows, w.Length0);
      BlockExtendsDrift(w, shard, i, end);
      stats := Plus(stats, BlockDrift(w, shard, i, end));
      i := i + rows;
    }
    return DeltasOf(sqrt, stats);
  }

  lemma {:induction false} NoDrift(w: Matrix, s: Matrix, cols: nat)
    requires Shape(w, |w|, cols) && Shape(s, |w|, cols)
    ensures Drift(w, s, cols, 0) == Stats(0.0, 0.0, 0.0, 0.0)
  {
  }
}
