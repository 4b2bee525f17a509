/** The DFlash2 draft path: the candidate-selector walk, and the cache of draft logits that
    clears only what it wrote last time. */
module DraftCache {
  import opened Arith
  import opened Wrappers

  /** A logit: minus infinity or a finite value. */
  datatype Score = NegInf | Fin(v: real)

  predicate AtLeast(a: Score, b: Score) {
    b.NegInf? || (a.Fin? && a.v >= b.v)
  }

  /** The first maximal entry. */
  function ArgMax(x: seq<Score>): (k: nat)
    requires x != []
    ensures k < |x|
    ensures forall i | 0 <= i < |x| :: AtLeast(x[k], x[i])
    ensures forall i | 0 <= i < k :: !AtLeast(x[i], x[k])
  {
    if |x| == 1 then 0
    else
      var k := ArgMax(x[..|x| - 1]);
      if AtLeast(x[k], x[|x| - 1]) then k else |x| - 1
  }

  datatype Dims = Dims(states: nat, steps: nat, topK: nat, vocab: nat) {
    predicate Valid() { steps > 0 && topK > 0 && topK <= vocab }
    function Rows(): nat { states * steps }
  }

  // Edge scores.

  /** What the scorer sees of one drafting step of one request. */
  datatype Lattice = Lattice(
    predecessor: seq<seq<real>>, successor: seq<seq<real>>, hidden: seq<seq<real>>, unary: seq<seq<real>>)

  function Dot3(a: seq<real>, b: seq<real>, c: seq<real>, n: nat): real
    requires n <= |a| && n <= |b| && n <= |c|
  {
    if n == 0 then 0.0 else Dot3(a, b, c, n - 1) + a[n - 1] * b[n - 1] * c[n - 1]
  }

  /** The model inputs of one batch. `live[flat]` is the request state, negative for padding. */
  datatype Batch = Batch(
    reqs: nat, anchors: seq<nat>, candidates: seq<seq<nat>>, lattice: Lattice, rank: nat,
    state: seq<int>, temperature: seq<real>, noise: seq<seq<real>>)
  {
    ghost predicate Valid(d: Dims) {
      && d.Valid()
      && |anchors| == reqs == |temperature|
      && |candidates| == reqs * d.steps == |state| == |noise| == |lattice.hidden| == |lattice.unary|
      && |lattice.predecessor| == d.vocab == |lattice.successor|
      && (forall i | 0 <= i < reqs :: anchors[i] < d.vocab)
      && (forall t | 0 <= t < d.vocab :: |lattice.predecessor[t]| == rank == |lattice.successor[t]|)
      && (forall i | 0 <= i < |state| :: |lattice.hidden[i]| == rank && |lattice.unary[i]| == d.topK)
      && (forall i | 0 <= i < |state| :: |candidates[i]| == d.topK == |noise[i]| && state[i] < d.states)
      && (forall i, o | 0 <= i < |state| && 0 <= o < d.topK :: candidates[i][o] < d.vocab)
      && (forall i | 0 <= i < |state| :: Distinct(candidates[i]))
    }
  }

  ghost predicate Distinct(s: seq<nat>) {
    forall i, j | 0 <= i < j < |s| :: s[i] != s[j]
  }

  function Flat(d: Dims, row: nat, step: nat): nat {
    row * d.steps + step
  }

  lemma {:induction false} FlatInRange(d: Dims, b: Batch, row: nat, step: nat)
    requires b.Valid(d) && row < b.reqs && step < d.steps
    ensures Flat(d, row, step) < |b.state|
  {
    MulMonotone(row + 1, b.reqs, d.steps);
    assert (row + 1) * d.steps == row * d.steps + d.steps;
  }

  /** The predecessor ids the scorer uses: the anchor before the first step, the previous
      step's candidates afterwards. */
  function PredecessorId(d: Dims, b: Batch, row: nat, step: nat, p: nat): (t: nat)
    requires b.Valid(d) && row < b.reqs && step < d.steps && p < d.topK
    ensures t < d.vocab
  {
    if step == 0 then b.anchors[row]
    else FlatInRange(d, b, row, step - 1); b.candidates[Flat(d, row, step - 1)][p]
  }

  /** The product is linear in its middle factor, and a factor that is zero but at `i` picks out
      entry `i` of the other two: that determines it. */
  lemma {:induction false} Dot3Adds(a: seq<real>, b: seq<real>, b': seq<real>, sum: seq<real>, c: seq<real>, n: nat)
    requires n <= |a| && n <= |b| && n <= |b'| && n <= |sum| && n <= |c|
    requires forall i | 0 <= i < n :: sum[i] == b[i] + b'[i]
    ensures Dot3(a, sum, c, n) == Dot3(a, b, c, n) + Dot3(a, b', c, n)
  {
    if n == 0 {
    } else {
      Dot3Adds(a, b, b', sum, c, n - 1);
      ProductAdds(a[n - 1], b[n - 1], b'[n - 1], c[n - 1]);
    }
  }

  lemma {:induction false} ProductAdds(x: real, y: real, y': real, z: real)
    ensures x * (y + y') * z == x * y * z + x * y' * z
  {
    assert x * (y + y') == x * y + x * y';
  }

  lemma {:induction false} Dot3Unit(a: seq<real>, b: seq<real>, c: seq<real>, n: nat, i: nat)
    requires n <= |a| && n <= |b| && n <= |c| && forall j | 0 <= j < n && j != i :: b[j] == 0.0
    ensures Dot3(a, b, c, n) == if i < n then a[i] * b[i] * c[i] else 0.0
    decreases n
  {
    if n == 0 {
    } else {
      Dot3Unit(a, b, c, n - 1, i);
      if i != n - 1 { assert a[n - 1] * b[n - 1] * c[n - 1] == 0.0; }
    }
  }

  /** The score of candidate `c` at a step when the token before it is `prev`. */
  function EdgeScore(d: Dims, b: Batch, flat: nat, prev: nat, c: nat): Score
    requires b.Valid(d) && flat < |b.state| && prev < d.vocab && c < d.topK
  {
    Fin(b.lattice.unary[flat][c] +
        Dot3(b.lattice.predecessor[prev], b.lattice.hidden[flat], b.lattice.successor[b.candidates[flat][c]], b.rank))
  }

  /** `_score_edges`, one (predecessor, candidate) table per step. */
  function ScoreRow(d: Dims, b: Batch, row: nat, step: nat, p: nat): (s: seq<Score>)
    requires b.Valid(d) && row < b.reqs && step < d.steps && p < d.topK
    ensures |s| == d.topK
  {
    FlatInRange(d, b, row, step);
    seq(d.topK, c requires 0 <= c < d.topK =>
      EdgeScore(d, b, Flat(d, row, step), PredecessorId(d, b, row, step, p), c))
  }

  // The walk.

  function Noised(s: Score, temperature: real, g: real): Score {
    if s.NegInf? || temperature == 0.0 then s else Fin(s.v / temperature + g)
  }

  function NoisedRow(s: seq<Score>, temperature: real, g: seq<real>): (r: seq<Score>)
    requires |s| == |g|
    ensures |r| == |s| && forall i | 0 <= i < |s| :: r[i] == Noised(s[i], temperature, g[i])
  {
    seq(|s|, i requires 0 <= i < |s| => Noised(s[i], temperature, g[i]))
  }

  /** The candidate index the walk holds before `step`. */
  function Previous(d: Dims, b: Batch, row: nat, step: nat): (p: nat)
    requires b.Valid(d) && row < b.reqs && step <= d.steps
    ensures p < d.topK
    decreases step, 0
  {
    if step == 0 then 0
    else
      FlatInRange(d, b, row, step - 1);
      ArgMax(NoisedRow(Realized(d, b, row, step - 1), b.temperature[row], b.noise[Flat(d, row, step - 1)]))
  }

  /** The scores the walk saw at `step`. */
  function Realized(d: Dims, b: Batch, row: nat, step: nat): (s: seq<Score>)
    requires b.Valid(d) && row < b.reqs && step < d.steps
    ensures |s| == d.topK
    decreases step, 1
  {
    ScoreRow(d, b, row, step, Previous(d, b, row, step))
  }

  function ChosenToken(d: Dims, b: Batch, row: nat, step: nat): (t: nat)
    requires b.Valid(d) && row < b.reqs && step < d.steps
    ensures t < d.vocab
  {
    FlatInRange(d, b, row, step);
    b.candidates[Flat(d, row, step)][Previous(d, b, row, step + 1)]
  }

  /** The token a step conditions on: the anchor, then the token drafted just before. */
  function TokenBefore(d: Dims, b: Batch, row: nat, step: nat): (t: nat)
    requires b.Valid(d) && row < b.reqs && step < d.steps
    ensures t < d.vocab
  {
    if step == 0 then b.anchors[row] else ChosenToken(d, b, row, step - 1)
  }

  /** The realized scores condition on the tokens actually drafted, and each drafted token is
      the best candidate under them. */
  lemma {:induction false} WalkFollowsItsOwnTokens(d: Dims, b: Batch, row: nat, step: nat, c: nat)
    requires b.Valid(d) && row < b.reqs && step < d.steps && c < d.topK
    ensures Flat(d, row, step) < |b.state|
    ensures Realized(d, b, row, step)[c] == EdgeScore(d, b, Flat(d, row, step), TokenBefore(d, b, row, step), c)
    ensures var k, f := Previous(d, b, row, step + 1), Flat(d, row, step);
            && ChosenToken(d, b, row, step) == b.candidates[f][k]
            && AtLeast(Noised(Realized(d, b, row, step)[k], b.temperature[row], b.noise[f][k]),
                       Noised(Realized(d, b, row, step)[c], b.temperature[row], b.noise[f][c]))
  {
    FlatInRange(d, b, row, step);
  }

  /** The scores the walk sees, in the lattice's own numbers: a candidate's unary logit plus its
      product with the anchor, or with the token drafted just before. */
  lemma {:induction false} ScoresSeen(d: Dims, b: Batch, row: nat, step: nat, c: nat)
    requires b.Valid(d) && row < b.reqs && step < d.steps && c < d.topK
    ensures row * d.steps + step < |b.state| && |Realized(d, b, row, step)| == d.topK
    ensures var f, before := row * d.steps + step,
                             if step == 0 then b.anchors[row] else ChosenToken(d, b, row, step - 1);
            Realized(d, b, row, step)[c] ==
            Fin(b.lattice.unary[f][c] + Dot3(b.lattice.predecessor[before], b.lattice.hidden[f],
                                             b.lattice.successor[b.candidates[f][c]], b.rank))
  {
    WalkFollowsItsOwnTokens(d, b, row, step, c);
    hide Realized, ScoreRow, Previous, ArgMax, ChosenToken, Dot3;
  }

  /** The drafted token is, without a temperature, the first candidate of the largest score, and
      otherwise of the largest score over the temperature plus noise. */
  lemma {:induction false} DraftIsBest(d: Dims, b: Batch, row: nat, step: nat) returns (f: nat, k: nat)
    requires b.Valid(d) && row < b.reqs && step < d.steps
    ensures f == row * d.steps + step < |b.state| && k < d.topK == |b.noise[f]|
    ensures ChosenToken(d, b, row, step) == b.candidates[f][k]
    ensures |Realized(d, b, row, step)| == d.topK
    ensures var s, temp, g := Realized(d, b, row, step), b.temperature[row], b.noise[f];
            forall c | 0 <= c < d.topK ::
              && s[c].Fin? && s[k].Fin?
              && if temp == 0.0 then s[c].v <= s[k].v && (c < k ==> s[c].v < s[k].v)
                 else && s[c].v / temp + g[c] <= s[k].v / temp + g[k]
                      && (c < k ==> s[c].v / temp + g[c] < s[k].v / temp + g[k])
  {
    FlatInRange(d, b, row, step);
    f, k := Flat(d, row, step), Previous(d, b, row, step + 1);
    forall c | 0 <= c < d.topK ensures Realized(d, b, row, step)[c].Fin? {
      ScoresSeen(d, b, row, step, c);
    }
    BestOfNoised(Realized(d, b, row, step), b.temperature[row], b.noise[f]);
    hide Realized, ScoreRow, Previous, ArgMax, ChosenToken;
  }

  /** The maximum over finite scores, in numbers. */
  lemma {:induction false} BestOfNoised(s: seq<Score>, temp: real, g: seq<real>)
    requires s != [] && |s| == |g| && forall c | 0 <= c < |s| :: s[c].Fin?
    ensures var k := ArgMax(NoisedRow(s, temp, g));
            && k < |s|
            && forall c | 0 <= c < |s| ::
                 if temp == 0.0 then s[c].v <= s[k].v && (c < k ==> s[c].v < s[k].v)
                 else && s[c].v / temp + g[c] <= s[k].v / temp + g[k]
                      && (c < k ==> s[c].v / temp + g[c] < s[k].v / temp + g[k])
  {
    hide ArgMax;
  }

  // The cache.

  /** What the last write to a cache row was. */
  datatype Write = Write(cands: seq<nat>, scores: seq<Score>)

  /** The dense row a full refill with that write would give. */
  ghost function Dense(w: Option<Write>, v: nat): Score
    requires w.Some? ==> |w.value.cands| == |w.value.scores|
  {
    if w.Some? && v in w.value.cands then
      var o :| 0 <= o < |w.value.cands| && w.value.cands[o] == v;
      w.value.scores[o]
    else NegInf
  }

  lemma {:induction false} DenseAtCandidate(w: Write, o: nat)
    requires |w.cands| == |w.scores| && o < |w.cands| && Distinct(w.cands)
    ensures Dense(Some(w), w.cands[o]) == w.scores[o]
  {
  }

  lemma {:induction false} DenseElsewhere(w: Option<Write>, v: nat)
    requires w.Some? ==> |w.value.cands| == |w.value.scores|
    requires w.Some? ==> v !in w.value.cands
    ensures Dense(w, v) == NegInf
  {
  }

  /** The cache row that program `flat` of the cache kernel owns. */
  function CacheRow(d: Dims, b: Batch, flat: nat): nat
    requires b.Valid(d) && flat < |b.state| && b.state[flat] >= 0
  {
    Flat(d, b.state[flat], flat % d.steps)
  }

  lemma {:induction false} CacheRowInRange(d: Dims, b: Batch, flat: nat)
    requires b.Valid(d) && flat < |b.state| && b.state[flat] >= 0
    ensures CacheRow(d, b, flat) < d.Rows()
  {
    MulMonotone(b.state[flat] + 1, d.states, d.steps);
    assert (b.state[flat] + 1) * d.steps == b.state[flat] * d.steps + d.steps;
  }

  function RowOf(d: Dims, flat: nat): nat
    requires d.steps > 0
  {
    flat / d.steps
  }

  lemma {:induction false} FlatSplits(d: Dims, b: Batch, flat: nat)
    requires b.Valid(d) && flat < |b.state|
    ensures RowOf(d, flat) < b.reqs && flat == Flat(d, RowOf(d, flat), flat % d.steps)
  {
    assert flat == d.steps * (flat / d.steps) + flat % d.steps;
    if flat / d.steps >= b.reqs { MulMonotone(b.reqs, flat / d.steps, d.steps); }
  }

  /** The program of a request's step owns the row of that step in the request's state, and leaves
      there the step's candidates with the scores the walk saw. */
  lemma {:induction false} ProgramOfStep(d: Dims, b: Batch, row: nat, step: nat)
    requires b.Valid(d) && row < b.reqs && step < d.steps
    ensures var f := row * d.steps + step;
            && f < |b.state|
            && (b.state[f] >= 0 ==> CacheRow(d, b, f) == b.state[f] * d.steps + step)
            && WriteOf(d, b, f) == Write(b.candidates[f], Realized(d, b, row, step))
            && TokenOf(d, b, f) == ChosenToken(d, b, row, step)
  {
    FlatInRange(d, b, row, step);
    DivUnique(Flat(d, row, step), d.steps, row, step);
    hide Realized, ChosenToken;
  }

  /** The candidates and realized scores that the walk leaves for program `flat`. */
  function WriteOf(d: Dims, b: Batch, flat: nat): (w: Write)
    requires b.Valid(d) && flat < |b.state|
    ensures |w.cands| == d.topK == |w.scores| && Distinct(w.cands)
    ensures forall o | 0 <= o < d.topK :: w.cands[o] < d.vocab
  {
    FlatSplits(d, b, flat);
    Write(b.candidates[flat], Realized(d, b, RowOf(d, flat), flat % d.steps))
  }

  /** What the cache rows hold after the first `m` programs of a batch. */
  function Refill(d: Dims, b: Batch, latest: map<nat, Write>, m: nat): map<nat, Write>
    requires b.Valid(d) && m <= |b.state|
  {
    if m == 0 then latest
    else
      var l := Refill(d, b, latest, m - 1);
      if b.state[m - 1] < 0 then l else l[CacheRow(d, b, m - 1) := WriteOf(d, b, m - 1)]
  }

  function Lookup(m: map<nat, Write>, row: nat): Option<Write> {
    if row in m then Some(m[row]) else None
  }

  /** A request keeps one state over its steps, and live requests have different states. */
  ghost predicate StatesDistinct(d: Dims, b: Batch)
    requires b.Valid(d)
  {
    && (forall i | 0 <= i < |b.state| :: RowOf(d, i) < b.reqs && b.state[i] == StateOf(d, b, RowOf(d, i)))
    && (forall r, q | 0 <= r < q < b.reqs :: StateOf(d, b, r) >= 0 ==> StateOf(d, b, r) != StateOf(d, b, q))
  }

  function StateOf(d: Dims, b: Batch, row: nat): int
    requires b.Valid(d) && row < b.reqs
  {
    FlatInRange(d, b, row, 0);
    b.state[Flat(d, row, 0)]
  }

  /** Programs of live requests own different cache rows, so their order does not matter. */
  lemma {:induction false} ProgramsOwnTheirRows(d: Dims, b: Batch, i: nat, j: nat)
    requires b.Valid(d) && StatesDistinct(d, b) && i < |b.state| && j < |b.state|
    requires b.state[i] >= 0 && b.state[j] >= 0 && CacheRow(d, b, i) == CacheRow(d, b, j)
    ensures i == j
  {
    DivUnique(CacheRow(d, b, i), d.steps, b.state[i], i % d.steps);
    DivUnique(CacheRow(d, b, j), d.steps, b.state[j], j % d.steps);
    FlatSplits(d, b, i);
    FlatSplits(d, b, j);
  }

  lemma {:induction false} RefillKeeps(d: Dims, b: Batch, latest: map<nat, Write>, m: nat, row: nat)
    requires b.Valid(d) && m <= |b.state|
    requires forall i | 0 <= i < m && b.state[i] >= 0 :: CacheRow(d, b, i) != row
    ensures Lookup(Refill(d, b, latest, m), row) == Lookup(latest, row)
    decreases m
  {
    hide WriteOf, CacheRow;
    if m == 0 {
    } else {
      RefillKeeps(d, b, latest, m - 1, row);
    }
  }

  /** After a batch, every live program's row holds exactly that program's write, and rows no
      live program owns are as before. */
  lemma {:induction false} RefillIsLatest(d: Dims, b: Batch, latest: map<nat, Write>, m: nat, i: nat)
    requires b.Valid(d) && StatesDistinct(d, b) && i < m <= |b.state| && b.state[i] >= 0
    ensures Lookup(Refill(d, b, latest, m), CacheRow(d, b, i)) == Some(WriteOf(d, b, i))
    decreases m
  {
    hide WriteOf, CacheRow, StatesDistinct;
    if i < m - 1 {
      RefillIsLatest(d, b, latest, m - 1, i);
      if b.state[m - 1] >= 0 {
        OtherRow(d, b, i, m - 1);
      }
    }
  }

  lemma {:induction false} OtherRow(d: Dims, b: Batch, i: nat, j: nat)
    requires b.Valid(d) && StatesDistinct(d, b) && i < j < |b.state|
    requires b.state[i] >= 0 && b.state[j] >= 0
    ensures CacheRow(d, b, i) != CacheRow(d, b, j)
  {
    hide CacheRow, StatesDistinct;
    if CacheRow(d, b, i) == CacheRow(d, b, j) { ProgramsOwnTheirRows(d, b, i, j); }
  }

  /** The cache after a run of batches from the start. */
  function RefillRun(d: Dims, batches: seq<Batch>, n: nat): map<nat, Write>
    requires n <= |batches| && forall m | 0 <= m < n :: batches[m].Valid(d)
  {
    if n == 0 then map[] else Refill(d, batches[n - 1], RefillRun(d, batches, n - 1), |batches[n - 1].state|)
  }

  /** Whether a live program of the batch owns the row. */
  ghost predicate Touches(d: Dims, b: Batch, row: nat)
    requires b.Valid(d)
  {
    exists i | 0 <= i < |b.state| :: b.state[i] >= 0 && CacheRow(d, b, i) == row
  }

  /** Over any run, a row holds what the last batch that touched it wrote, however many batches
      went by since; a row no batch touched holds nothing. */
  lemma {:induction false} RowKeepsItsLastWrite(d: Dims, batches: seq<Batch>, n: nat, row: nat, m: nat, i: nat)
    requires m < n <= |batches| && forall j | 0 <= j < n :: batches[j].Valid(d) && StatesDistinct(d, batches[j])
    requires i < |batches[m].state| && batches[m].state[i] >= 0 && CacheRow(d, batches[m], i) == row
    requires forall j | m < j < n :: !Touches(d, batches[j], row)
    ensures Lookup(RefillRun(d, batches, n), row) == Some(WriteOf(d, batches[m], i))
    decreases n
  {
    hide Batch.Valid, StatesDistinct, WriteOf, CacheRow, Refill, Lookup;
    var b, latest := batches[n - 1], RefillRun(d, batches, n - 1);
    if m == n - 1 {
      RefillIsLatest(d, b, latest, |b.state|, i);
    } else {
      RowKeepsItsLastWrite(d, batches, n - 1, row, m, i);
      assert !Touches(d, b, row);
      RefillKeeps(d, b, latest, |b.state|, row);
    }
  }

  lemma {:induction false} UntouchedRowIsEmpty(d: Dims, batches: seq<Batch>, n: nat, row: nat)
    requires n <= |batches| && forall j | 0 <= j < n :: batches[j].Valid(d) && !Touches(d, batches[j], row)
    ensures Lookup(RefillRun(d, batches, n), row) == None
    decreases n
  {
    hide Batch.Valid, CacheRow, Refill;
    if n == 0 {
    } else {
      var b := batches[n - 1];
      assert !Touches(d, b, row);
      UntouchedRowIsEmpty(d, batches, n - 1, row);
      RefillKeeps(d, b, RefillRun(d, batches, n - 1), |b.state|, row);
    }
  }

  /** The token the walk drafts at `flat`. */
  function TokenOf(d: Dims, b: Batch, flat: nat): (t: nat)
    requires b.Valid(d) && flat < |b.state|
  {
    FlatSplits(d, b, flat);
    ChosenToken(d, b, RowOf(d, flat), flat % d.steps)
  }

  lemma {:induction false} PreviousStarts(d: Dims, b: Batch, row: nat)
    requires b.Valid(d) && row < b.reqs
    ensures Previous(d, b, row, 0) == 0
  {
  }

  lemma {:induction false} StepResults(d: Dims, b: Batch, row: nat, step: nat)
    requires b.Valid(d) && row < b.reqs && step < d.steps
    ensures Flat(d, row, step) < |b.state|
    ensures var f, scores := Flat(d, row, step), ScoreRow(d, b, row, step, Previous(d, b, row, step));
            && WriteOf(d, b, f).scores == scores
            && Previous(d, b, row, step + 1) == ArgMax(NoisedRow(scores, b.temperature[row], b.noise[f]))
            && TokenOf(d, b, f) == b.candidates[f][Previous(d, b, row, step + 1)]
  {
    FlatInRange(d, b, row, step);
    DivUnique(Flat(d, row, step), d.steps, row, step);
  }

  class Speculator {
    const d: Dims
    var draftLogits: array2<Score>     // one row per (state, step)
    var cachedIds: array2<nat>
    var selectorScores: array2<Score>  // one row per (request, step)
    var draftTokens: array<nat>
    ghost var latest: map<nat, Write>

    ghost predicate Shapes()
      reads this
    {
      && d.Valid()
      && draftLogits.Length0 == d.Rows() == cachedIds.Length0
      && draftLogits.Length1 == d.vocab && cachedIds.Length1 == d.topK == selectorScores.Length1
      && draftTokens.Length == selectorScores.Length0
      && draftLogits != selectorScores && draftLogits as object != cachedIds
    }

    /** The row is the dense refill of its latest write, and the ids that the next write will
        clear cover everything that is not minus infinity. */
    ghost predicate RowOk(row: nat)
      requires Shapes() && row < d.Rows()
      reads this, draftLogits, cachedIds
    {
      var w := Lookup(latest, row);
      && (w.Some? ==> |w.value.cands| == |w.value.scores| == d.topK)
      && (forall v | 0 <= v < d.vocab :: draftLogits[row, v] == Dense(w, v))
      && (forall o | 0 <= o < d.topK :: cachedIds[row, o] == if w.Some? then w.value.cands[o] else 0)
      && (forall o | 0 <= o < d.topK :: cachedIds[row, o] < d.vocab)
    }

    ghost predicate Valid()
      reads this, draftLogits, cachedIds
    {
      Shapes() && forall row | 0 <= row < d.Rows() :: RowOk(row)
    }

    constructor (d: Dims, maxReqs: nat)
      requires d.Valid()
      ensures Valid() && this.d == d && latest == map[] && draftTokens.Length == maxReqs * d.steps
      ensures fresh(draftLogits) && fresh(cachedIds) && fresh(selectorScores) && fresh(draftTokens)
    {
      this.d := d;
      draftLogits := new Score[d.Rows(), d.vocab]((i, j) => NegInf);
      cachedIds := new nat[d.Rows(), d.topK]((i, j) => 0);
      selectorScores := new Score[maxReqs * d.steps, d.topK]((i, j) => NegInf);
      draftTokens := new nat[maxReqs * d.steps];
      latest := map[];
    }

    /** One program of the cache kernel: clear what the previous write left, store the new
        scores, remember their ids. */
    method CacheProgram(b: Batch, flat: nat)
      requires Valid() && b.Valid(d) && flat < |b.state| && |b.state| <= selectorScores.Length0
      requires b.state[flat] >= 0 ==>
        forall o | 0 <= o < d.topK :: selectorScores[flat, o] == WriteOf(d, b, flat).scores[o]
      modifies draftLogits, cachedIds, this`latest
      ensures Valid()
      ensures latest == if b.state[flat] < 0 then old(latest)
                        else old(latest)[CacheRow(d, b, flat) := WriteOf(d, b, flat)]
    {
      hide Dense, WriteOf, CacheRow, Refill;
      if b.state[flat] < 0 { return; }
      CacheRowInRange(d, b, flat);
      var row := CacheRow(d, b, flat);
      ghost var w := WriteOf(d, b, flat);
      assert RowOk(row);
      assert forall v | 0 <= v < d.vocab ::
               draftLogits[row, v] == NegInf || exists o :: 0 <= o < d.topK && cachedIds[row, o] == v by {
        NonEmptyIsRemembered(Lookup(latest, row), row);
      }
      assert w.cands == b.candidates[flat] by { WriteFields(d, b, flat); }
      StoreRow(row, b.candidates[flat], flat, d.topK, d.vocab);
      latest := latest[row := w];
      RefilledRow(w, row);
      forall r | 0 <= r < d.Rows() && r != row ensures RowOk(r) {
        assert old(RowOk(r)) && Lookup(latest, r) == old(Lookup(latest, r));
      }
    }

    /** The walk's results for one (request, step). */
    ghost predicate FlatDone(b: Batch, f: nat)
      requires Shapes() && b.Valid(d) && f < |b.state| <= selectorScores.Length0
      reads this, selectorScores, draftTokens
    {
      && (forall o | 0 <= o < d.topK :: selectorScores[f, o] == WriteOf(d, b, f).scores[o])
      && draftTokens[f] == TokenOf(d, b, f)
    }

    /** One step of the walk: score the candidates after the one held, keep the best. */
    method WalkStep(b: Batch, row: nat, step: nat, previous: nat) returns (index: nat)
      requires Shapes() && b.Valid(d) && row < b.reqs && step < d.steps && |b.state| <= selectorScores.Length0
      requires previous == Previous(d, b, row, step)
      modifies selectorScores, draftTokens
      ensures index == Previous(d, b, row, step + 1)
      ensures Flat(d, row, step) < |b.state| && FlatDone(b, Flat(d, row, step))
      ensures forall f | 0 <= f < |b.state| && f != Flat(d, row, step) :: FlatDone(b, f) == old(FlatDone(b, f))
    {
      hide Realized, Previous, WriteOf, TokenOf;
      FlatInRange(d, b, row, step);
      var flat := Flat(d, row, step);
      var scores := ScoreRow(d, b, row, step, previous);
      index := ArgMax(NoisedRow(scores, b.temperature[row], b.noise[flat]));
      forall o | 0 <= o < d.topK {
        selectorScores[flat, o] := scores[o];
      }
      draftTokens[flat] := b.candidates[flat][index];
      StepResults(d, b, row, step);
    }

    /** One program of the walk kernel. Padding rows are left alone. */
    method WalkProgram(b: Batch, row: nat)
      requires Shapes() && b.Valid(d) && row < b.reqs && |b.state| <= selectorScores.Length0
      modifies selectorScores, draftTokens
      ensures forall f | 0 <= f < |b.state| ::
        FlatDone(b, f) == if StateOf(d, b, row) >= 0 && Flat(d, row, 0) <= f < Flat(d, row, 0) + d.steps then true
                          else old(FlatDone(b, f))
    {
      hide FlatDone, Previous, ScoreRow;
      var base := Flat(d, row, 0);
      FlatInRange(d, b, row, 0);
      if b.state[base] < 0 { return; }
      var previous := 0;
      PreviousStarts(d, b, row);
      for step := 0 to d.steps
        invariant previous == Previous(d, b, row, step)
        invariant forall f | 0 <= f < |b.state| ::
          FlatDone(b, f) == if base <= f < base + step then true else old(FlatDone(b, f))
      {
        previous := WalkStep(b, row, step, previous);
      }
    }

    lemma NonEmptyIsRemembered(w: Option<Write>, row: nat)
      requires Shapes() && row < d.Rows() && RowOk(row) && w == Lookup(latest, row)
      ensures forall v | 0 <= v < d.vocab ::
        draftLogits[row, v] == NegInf || exists o :: 0 <= o < d.topK && cachedIds[row, o] == v
    {
    }

    lemma RefilledRow(w: Write, row: nat)
      requires Shapes() && row < d.Rows() && Lookup(latest, row) == Some(w) && Distinct(w.cands)
      requires |w.cands| == |w.scores| == d.topK && forall o | 0 <= o < d.topK :: w.cands[o] < d.vocab
      requires forall o | 0 <= o < d.topK :: cachedIds[row, o] == w.cands[o]
      requires forall o | 0 <= o < d.topK :: draftLogits[row, w.cands[o]] == w.scores[o]
      requires forall v | 0 <= v < d.vocab && v !in w.cands :: draftLogits[row, v] == NegInf
      ensures RowOk(row)
    {
      forall v | 0 <= v < d.vocab ensures draftLogits[row, v] == Dense(Some(w), v) {
        if v in w.cands {
          var o :| 0 <= o < |w.cands| && w.cands[o] == v;
          DenseAtCandidate(w, o);
        }
      }
    }

    /** The three vector stores of the kernel. */
    method StoreRow(row: nat, ids: seq<nat>, flat: nat, k: nat, vocab: nat)
      requires row < draftLogits.Length0 == cachedIds.Length0 && flat < selectorScores.Length0
      requires draftLogits.Length1 == vocab && cachedIds.Length1 == k == selectorScores.Length1 == |ids|
      requires draftLogits != selectorScores && draftLogits as object != cachedIds && Distinct(ids)
      requires forall o | 0 <= o < k :: ids[o] < vocab && cachedIds[row, o] < vocab
      requires forall v | 0 <= v < vocab ::
                 draftLogits[row, v] == NegInf || exists o :: 0 <= o < k && cachedIds[row, o] == v
      modifies draftLogits, cachedIds
      ensures forall r, v | 0 <= r < draftLogits.Length0 && 0 <= v < vocab && r != row ::
                draftLogits[r, v] == old(draftLogits[r, v])
      ensures forall r, o | 0 <= r < cachedIds.Length0 && 0 <= o < k && r != row ::
                cachedIds[r, o] == old(cachedIds[r, o])
      ensures forall o | 0 <= o < k :: cachedIds[row, o] == ids[o]
      ensures forall o | 0 <= o < k :: draftLogits[row, ids[o]] == selectorScores[flat, o]
      ensures forall v | 0 <= v < vocab && v !in ids :: draftLogits[row, v] == NegInf
    {
      ClearRow(row, k, vocab);
      forall o | 0 <= o < k {
        draftLogits[row, ids[o]] := selectorScores[flat, o];
      }
      forall o | 0 <= o < k {
        cachedIds[row, o] := ids[o];
      }
    }

    /** Clearing only the remembered ids empties the row. */
    method ClearRow(row: nat, k: nat, vocab: nat)
      requires row < draftLogits.Length0 == cachedIds.Length0
      requires draftLogits.Length1 == vocab && cachedIds.Length1 == k && draftLogits as object != cachedIds
      requires forall o | 0 <= o < k :: cachedIds[row, o] < vocab
      requires forall v | 0 <= v < vocab ::
                 draftLogits[row, v] == NegInf || exists o :: 0 <= o < k && cachedIds[row, o] == v
      modifies draftLogits
      ensures forall o | 0 <= o < k :: cachedIds[row, o] == old(cachedIds[row, o])
      ensures forall r, v | 0 <= r < draftLogits.Length0 && 0 <= v < vocab && r != row ::
                draftLogits[r, v] == old(draftLogits[r, v])
      ensures forall v | 0 <= v < vocab :: draftLogits[row, v] == NegInf
    {
      forall o | 0 <= o < k {
        draftLogits[row, cachedIds[row, o]] := NegInf;
      }
      forall v | 0 <= v < vocab ensures draftLogits[row, v] == NegInf {
        if old(draftLogits[row, v]) != NegInf {
          assert old(exists o :: 0 <= o < k && cachedIds[row, o] == v);
          var o :| 0 <= o < k && old(cachedIds[row, o]) == v;
          assert draftLogits[row, cachedIds[row, o]] == NegInf;
        }
      }
    }

    /** Draft one batch: walk every request, then refresh the cache rows of the live ones. */
    method GenerateDraft(b: Batch)
      requires Valid() && b.Valid(d) && StatesDistinct(d, b) && |b.state| <= selectorScores.Length0
      modifies draftLogits, cachedIds, selectorScores, draftTokens, this`latest
      ensures Valid()
      ensures latest == Refill(d, b, old(latest), |b.state|)
      ensures forall f | 0 <= f < |b.state| && b.state[f] >= 0 :: draftTokens[f] == TokenOf(d, b, f)
      ensures forall f | 0 <= f < |b.state| && b.state[f] >= 0 ::
        && Lookup(latest, CacheRow(d, b, f)) == Some(WriteOf(d, b, f))
        && CacheRow(d, b, f) < d.Rows()
        && forall v | 0 <= v < d.vocab :: draftLogits[CacheRow(d, b, f), v] == Dense(Some(WriteOf(d, b, f)), v)
    {
      hide Dense, WriteOf, Refill, TokenOf;
      WalkAll(b);
      CacheAll(b);
      forall f | 0 <= f < |b.state| && b.state[f] >= 0
        ensures Lookup(latest, CacheRow(d, b, f)) == Some(WriteOf(d, b, f))
        ensures CacheRow(d, b, f) < d.Rows()
        ensures forall v | 0 <= v < d.vocab :: draftLogits[CacheRow(d, b, f), v] == Dense(Some(WriteOf(d, b, f)), v)
      {
        RefillIsLatest(d, b, old(latest), |b.state|, f);
        CacheRowInRange(d, b, f);
        assert RowOk(CacheRow(d, b, f));
      }
    }

    method WalkAll(b: Batch)
      requires Valid() && b.Valid(d) && StatesDistinct(d, b) && |b.state| <= selectorScores.Length0
      modifies selectorScores, draftTokens
      ensures Valid()
      ensures forall f | 0 <= f < |b.state| && b.state[f] >= 0 :: FlatDone(b, f)
    {
      hide FlatDone, RowOk;
      for row := 0 to b.reqs
        invariant Valid()
        invariant forall f | 0 <= f < |b.state| && b.state[f] >= 0 && RowOf(d, f) < row :: FlatDone(b, f)
      {
        WalkProgram(b, row);
        forall f | 0 <= f < |b.state| && b.state[f] >= 0 && RowOf(d, f) == row
          ensures StateOf(d, b, row) >= 0 && Flat(d, row, 0) <= f < Flat(d, row, 0) + d.steps
        {
          FlatSplits(d, b, f);
        }
      }
    }

    method CacheAll(b: Batch)
      requires Valid() && b.Valid(d) && |b.state| <= selectorScores.Length0
      requires forall f | 0 <= f < |b.state| && b.state[f] >= 0 :: FlatDone(b, f)
      modifies draftLogits, cachedIds, this`latest
      ensures Valid()
      ensures latest == Refill(d, b, old(latest), |b.state|)
    {
      for flat := 0 to |b.state|
        invariant Valid()
        invariant latest == Refill(d, b, old(latest), flat)
        invariant forall f | 0 <= f < |b.state| && b.state[f] >= 0 :: FlatDone(b, f)
      {
        CacheProgram(b, flat);
      }
    }
  }

  lemma {:induction false} WriteFields(d: Dims, b: Batch, flat: nat)
    requires b.Valid(d) && flat < |b.state|
    ensures WriteOf(d, b, flat).cands == b.candidates[flat]
  {
  }
}
