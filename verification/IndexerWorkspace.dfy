/** Sizing of the sparse-indexer prefill workspace, and why the narrower sizing cannot change
    what the splitter does. */
module IndexerWorkspace {
  import opened Arith
  import opened PrefillSplitter
  import opened Wrappers

  /** What the sizing reads of the serving configuration. A draft count that is missing, or
      not a positive number, is 0. */
  datatype Config = Config(
    maxModelLen: nat, indexKpool: Option<int>, maxNumSeqs: nat, maxNumBatchedTokens: nat, numSpeculativeTokens: int)

  datatype Mode = Stock | Rightsize

  /** The switch is compared literally; only an unset variable means the default. */
  function WorkspaceMode(env: Option<string>): Result<Mode> {
    match env
    case None => Ok(Stock)
    case Some(raw) =>
      if raw == "stock" then Ok(Stock)
      else if raw == "rightsize" then Ok(Rightsize)
      else Error("must be exactly one of: stock rightsize")
  }

  function StockEntries(maxModelLen: nat): nat {
    maxModelLen * 40
  }

  function CompressRatio(c: Config): (r: nat)
    ensures r >= 1
  {
    if c.indexKpool.Some? && c.indexKpool.value > 1 then c.indexKpool.value else 1
  }

  function MaxPrefillReqs(c: Config): nat {
    Max(1, Min(c.maxNumSeqs, c.maxNumBatchedTokens))
  }

  function Span(c: Config): nat {
    c.maxModelLen + Max(0, c.numSpeculativeTokens)
  }

  function RightsizedEntries(c: Config): nat {
    var stock := StockEntries(c.maxModelLen);
    if CompressRatio(c) <= 1 then stock
    else Min(CeilDiv(Span(c), CompressRatio(c)) * MaxPrefillReqs(c), stock)
  }

  /** The patched `get_max_prefill_buffer_size`. */
  function BufferSize(env: Option<string>, c: Config): Result<nat> {
    var stock := StockEntries(c.maxModelLen);
    match WorkspaceMode(env)
    case Error(m) => Error(m)
    case Ok(Stock) => Ok(stock)
    case Ok(Rightsize) =>
      var entries := RightsizedEntries(c);
      if entries >= stock then Ok(stock) else Ok(entries)
  }

  /** The builder's boot-time cross-check against the ratio the runtime really uses. */
  function BuilderCheck(env: Option<string>, c: Config, runtimeRatio: nat, bufferSize: nat): Result<()> {
    match WorkspaceMode(env)
    case Error(m) => Error(m)
    case Ok(Stock) => Ok(())
    case Ok(Rightsize) =>
      if CompressRatio(c) != runtimeRatio then Error("compress-ratio disagreement")
      else if bufferSize < Min(RightsizedEntries(c), StockEntries(c.maxModelLen)) then
        Error("workspace below legal maximum")
      else Ok(())
  }

  /** The size, setting by setting, in the configuration's own numbers. */
  lemma {:induction false} SizeBySetting(env: Option<string>, c: Config)
    ensures env == None || env == Some("stock") ==> BufferSize(env, c) == Ok(40 * c.maxModelLen)
    ensures env.Some? && env.value != "stock" && env.value != "rightsize" ==> BufferSize(env, c).Error?
    ensures env == Some("rightsize") && (c.indexKpool == None || c.indexKpool.value <= 1) ==>
              BufferSize(env, c) == Ok(40 * c.maxModelLen)
    ensures env == Some("rightsize") && c.indexKpool.Some? && c.indexKpool.value > 1 ==>
              var k, span := c.indexKpool.value, c.maxModelLen + Max(0, c.numSpeculativeTokens);
              var perRequest, requests := (span + k - 1) / k, Max(1, Min(c.maxNumSeqs, c.maxNumBatchedTokens));
              BufferSize(env, c) == Ok(Min(perRequest * requests, 40 * c.maxModelLen))
  {
  }

  /** The builder, for a workspace of any size: `rightsize` needs the configured ratio and at least
      the right-sized entries, stock needs nothing. */
  lemma {:induction false} BuilderBySetting(env: Option<string>, c: Config, runtimeRatio: nat, size: nat)
    ensures BuilderCheck(env, c, runtimeRatio, size).Ok? <==>
            || env == None || env == Some("stock")
            || (env == Some("rightsize") && runtimeRatio == CompressRatio(c) && size >= RightsizedEntries(c))
  {
  }

  // The batches the scheduler can form.

  /** Per request: query tokens this step, and the upper bound on its sequence length. */
  datatype Step = Step(queryLens: seq<nat>, seqLens: seq<nat>)

  /** Every prefill row costs a query token, and a sequence may run ahead of the model length by
      the draft length only. */
  ghost predicate LegalStep(c: Config, s: Step) {
    && |s.queryLens| == |s.seqLens| <= c.maxNumSeqs
    && (forall i | 0 <= i < |s.queryLens| :: s.queryLens[i] >= 1)
    && Sum(s.queryLens, 0, |s.queryLens|) <= c.maxNumBatchedTokens
    && forall i | 0 <= i < |s.seqLens| :: s.seqLens[i] <= c.maxModelLen + Max(0, c.numSpeculativeTokens)
  }

  function Compressed(seqLens: seq<nat>, ratio: nat): (z: seq<nat>)
    requires ratio > 0
    ensures |z| == |seqLens| && forall i | 0 <= i < |z| :: z[i] == seqLens[i] / ratio
  {
    seq(|seqLens|, i requires 0 <= i < |seqLens| => seqLens[i] / ratio)
  }

  function BatchOf(s: Step, ratio: nat): (t: Batch)
    requires ratio > 0
    ensures t.q == s.queryLens && |t.s| == |s.seqLens| && forall i | 0 <= i < |t.s| :: t.s[i] == s.seqLens[i] / ratio
  {
    Batch(s.queryLens, Compressed(s.seqLens, ratio))
  }

  lemma {:induction false} OneTokenEach(q: seq<nat>, m: nat)
    requires m <= |q| && forall i | 0 <= i < |q| :: q[i] >= 1
    ensures m <= Sum(q, 0, m)
    decreases m
  {
    if m == 0 {
    } else {
      OneTokenEach(q, m - 1);
    }
  }

  lemma {:induction false} SumBound(x: seq<nat>, bound: nat, m: nat)
    requires m <= |x| && forall i | 0 <= i < |x| :: x[i] <= bound
    ensures Sum(x, 0, m) <= m * bound
    decreases m
  {
    if m == 0 {
      assert 0 * bound == 0;
    } else {
      SumBound(x, bound, m - 1);
      assert (m - 1) * bound + bound == m * bound;
    }
  }

  lemma {:induction false} CeilCovers(a: nat, b: nat, d: nat)
    requires d > 0 && a <= b
    ensures a / d <= CeilDiv(b, d)
  {
    var p, r := a / d, CeilDiv(b, d);
    assert a == d * p + a % d && b + d - 1 == d * r + (b + d - 1) % d;
    if p > r { MulMonotone(r + 1, p, d); }
  }

  /** No legal step asks for more than the right-sized bound before it is clamped. */
  lemma {:induction false} LegalTotal(c: Config, s: Step)
    requires LegalStep(c, s)
    ensures var z := Compressed(s.seqLens, CompressRatio(c));
            Sum(z, 0, |z|) <= CeilDiv(Span(c), CompressRatio(c)) * MaxPrefillReqs(c)
  {
    var ratio := CompressRatio(c);
    var z, per := Compressed(s.seqLens, ratio), CeilDiv(Span(c), ratio);
    OneTokenEach(s.queryLens, |s.queryLens|);
    forall i | 0 <= i < |z| ensures z[i] <= per {
      CeilCovers(s.seqLens[i], Span(c), ratio);
    }
    SumBound(z, per, |z|);
    MulMonotone(|z|, MaxPrefillReqs(c), per);
  }

  /** The narrower workspace gives every legal step the chunk list the stock one gives, and it
      never is larger than stock. */
  lemma {:induction false} RightsizingKeepsChunks(c: Config, s: Step, logitsElems: nat)
    requires LegalStep(c, s)
    ensures RightsizedEntries(c) <= StockEntries(c.maxModelLen)
    ensures var t := BatchOf(s, CompressRatio(c));
            Chunks(t, RightsizedEntries(c), logitsElems, 0) == Chunks(t, StockEntries(c.maxModelLen), logitsElems, 0)
  {
    if RightsizedEntries(c) < StockEntries(c.maxModelLen) {
      LegalTotal(c, s);
      var t := BatchOf(s, CompressRatio(c));
      LargeWorkspacesAgree(t, RightsizedEntries(c), StockEntries(c.maxModelLen), logitsElems, 0);
    }
  }

  /** End to end: if sizing succeeds and the builder accepts, serving under that workspace cuts
      every legal step, divided by the ratio the runtime uses, as stock serving would. In
      `rightsize` mode a runtime ratio other than the configured one is always refused. */
  lemma {:induction false} AcceptedBootServesStockChunks(
    env: Option<string>, c: Config, runtimeRatio: nat, s: Step, logitsElems: nat)
    requires runtimeRatio > 0 && LegalStep(c, s)
    requires BufferSize(env, c).Ok? && BuilderCheck(env, c, runtimeRatio, BufferSize(env, c).value).Ok?
    ensures WorkspaceMode(env) == Ok(Rightsize) ==> runtimeRatio == CompressRatio(c)
    ensures Chunks(BatchOf(s, runtimeRatio), BufferSize(env, c).value, logitsElems, 0)
            == Chunks(BatchOf(s, runtimeRatio), StockEntries(c.maxModelLen), logitsElems, 0)
  {
    RightsizingKeepsChunks(c, s, logitsElems);
  }

  /** The builder's second test never fires on a size that came from the sizing function, so
      in `rightsize` mode the ratio comparison alone decides. */
  lemma {:induction false} BuilderAcceptsIff(env: Option<string>, c: Config, runtimeRatio: nat)
    requires BufferSize(env, c).Ok?
    ensures BuilderCheck(env, c, runtimeRatio, BufferSize(env, c).value).Ok? <==>
            (WorkspaceMode(env) == Ok(Rightsize) ==> runtimeRatio == CompressRatio(c))
  {
  }

  // Which workspaces keep the chunks.

  /** Serving with `ws` entries cuts every legal step, under every logits budget, as stock. */
  ghost predicate KeepsChunks(c: Config, ws: nat) {
    forall s: Step, e: nat | LegalStep(c, s) ::
      Chunks(BatchOf(s, CompressRatio(c)), ws, e, 0)
      == Chunks(BatchOf(s, CompressRatio(c)), StockEntries(c.maxModelLen), e, 0)
  }

  /** The most compressed entries a legal step can have. */
  function FullEntries(c: Config): nat {
    var perRequest: nat, requests: nat := Span(c) / CompressRatio(c), MaxPrefillReqs(c);
    MulMonotone(0, perRequest, requests);
    perRequest * requests
  }

  lemma {:induction false} FloorMonotone(a: nat, b: nat, d: nat)
    requires d > 0 && a <= b
    ensures a / d <= b / d
  {
    Quotient(a, d);
    Quotient(b, d);
    if a / d > b / d { MulMonotone(b / d + 1, a / d, d); }
    assert (b / d + 1) * d == b / d * d + d;
  }

  lemma {:induction false} LegalFull(c: Config, s: Step)
    requires LegalStep(c, s)
    ensures var z := Compressed(s.seqLens, CompressRatio(c)); Sum(z, 0, |z|) <= FullEntries(c)
  {
    assert Span(c) == c.maxModelLen + Max(0, c.numSpeculativeTokens);
    hide Span, CompressRatio;
    var ratio := CompressRatio(c);
    var z, per := Compressed(s.seqLens, ratio), Span(c) / ratio;
    OneTokenEach(s.queryLens, |s.queryLens|);
    forall i | 0 <= i < |z| ensures z[i] <= per {
      FloorMonotone(s.seqLens[i], Span(c), ratio);
    }
    SumBound(z, per, |z|);
    MulMonotone(|z|, MaxPrefillReqs(c), per);
  }

  lemma {:induction false} SumPrefix(x: seq<nat>, y: nat, m: nat)
    requires m <= |x|
    ensures Sum(x + [y], 0, m) == Sum(x, 0, m)
    decreases m
  {
    if m == 0 {
    } else {
      SumPrefix(x, y, m - 1);
    }
  }

  /** `total` spread over `n` requests of at most `per` each. */
  function Spread(total: nat, per: nat, n: nat): (x: seq<nat>)
    ensures |x| == n && forall i | 0 <= i < n :: x[i] <= per
  {
    if n == 0 then [] else Spread(total - Min(total, per), per, n - 1) + [Min(total, per)]
  }

  lemma {:induction false} SpreadSum(total: nat, per: nat, n: nat)
    requires total <= n * per
    ensures Sum(Spread(total, per, n), 0, n) == total
    decreases n
  {
    if n == 0 {
      assert 0 * per == 0;
    } else {
      var last := Min(total, per);
      assert (n - 1) * per + per == n * per;
      MulMonotone(0, n - 1, per);
      SpreadSum(total - last, per, n - 1);
      SumPrefix(Spread(total - last, per, n - 1), last, n - 1);
    }
  }

  /** A step of requests with one query token each and the given compressed lengths. */
  function StepOf(z: seq<nat>, ratio: nat): (s: Step)
    requires ratio > 0
    ensures |s.queryLens| == |s.seqLens| == |z|
  {
    Step(seq(|z|, _ => 1), seq(|z|, i requires 0 <= i < |z| => Times(z[i], ratio)))
  }

  function Times(a: nat, b: nat): (p: nat)
    ensures p == a * b
  {
    MulMonotone(0, a, b);
    a * b
  }

  lemma {:induction false} CompressedStepOf(z: seq<nat>, ratio: nat)
    requires ratio > 0
    ensures BatchOf(StepOf(z, ratio), ratio).s == z
  {
    forall i | 0 <= i < |z| ensures Times(z[i], ratio) / ratio == z[i] {
      DivUnique(z[i] * ratio, ratio, z[i], 0);
    }
    hide Times;
    assert BatchOf(StepOf(z, ratio), ratio).s == z;
  }

  lemma {:induction false} StepOfIsLegal(c: Config, z: seq<nat>)
    requires |z| <= Min(c.maxNumSeqs, c.maxNumBatchedTokens)
    requires forall i | 0 <= i < |z| :: z[i] <= Span(c) / CompressRatio(c)
    ensures LegalStep(c, StepOf(z, CompressRatio(c)))
  {
    assert Span(c) == c.maxModelLen + Max(0, c.numSpeculativeTokens);
    hide Span, CompressRatio;
    var ratio, s := CompressRatio(c), StepOf(z, CompressRatio(c));
    ConstantSum(s.queryLens, 1, |z|);
    Quotient(Span(c), ratio);
    forall i | 0 <= i < |z| ensures s.seqLens[i] <= Span(c) {
      MulMonotone(z[i], Span(c) / ratio, ratio);
    }
  }

  lemma {:induction false} ConstantSum(x: seq<nat>, v: nat, m: nat)
    requires m <= |x| && forall i | 0 <= i < |x| :: x[i] == v
    ensures Sum(x, 0, m) == m * v
    decreases m
  {
    if m == 0 {
      assert 0 * v == 0;
    } else {
      ConstantSum(x, v, m - 1);
      assert (m - 1) * v + v == m * v;
    }
  }

  /** A lone request is a slice of its own under every workspace. */
  lemma {:induction false} LoneRequest(t: Batch, ws0: nat, ws1: nat, e: nat)
    requires t.Valid() && |t.q| <= 1
    ensures Chunks(t, ws0, e, 0) == Chunks(t, ws1, e, 0)
  {
    if |t.q| == 1 {
      assert SliceEnd(t, ws0, e, 0, 1) == 1 == SliceEnd(t, ws1, e, 0, 1);
      hide Sum, SubChunks, MaxRows;
      assert Chunks(t, ws0, e, 1) == [] == Chunks(t, ws1, e, 1);
    }
  }

  /** A workspace keeps stock's chunks if and only if no two requests ever share a step, or it is
      stock's size, or both it and stock's hold the fullest legal step. */
  lemma {:induction false} WorkspaceSufficesIff(c: Config, ws: nat)
    ensures var stock := StockEntries(c.maxModelLen);
            KeepsChunks(c, ws) <==>
            Min(c.maxNumSeqs, c.maxNumBatchedTokens) < 2 || ws == stock || Min(ws, stock) >= FullEntries(c)
  {
    var stock := StockEntries(c.maxModelLen);
    if Min(c.maxNumSeqs, c.maxNumBatchedTokens) < 2 || ws == stock || Min(ws, stock) >= FullEntries(c) {
      forall s: Step, e: nat | LegalStep(c, s)
        ensures Chunks(BatchOf(s, CompressRatio(c)), ws, e, 0) == Chunks(BatchOf(s, CompressRatio(c)), stock, e, 0)
      {
        SufficientWorkspace(c, ws, s, e);
      }
    } else {
      InsufficientWorkspace(c, ws);
    }
  }

  lemma {:induction false} SufficientWorkspace(c: Config, ws: nat, s: Step, e: nat)
    requires LegalStep(c, s)
    requires var stock := StockEntries(c.maxModelLen);
             Min(c.maxNumSeqs, c.maxNumBatchedTokens) < 2 || ws == stock || Min(ws, stock) >= FullEntries(c)
    ensures Chunks(BatchOf(s, CompressRatio(c)), ws, e, 0)
            == Chunks(BatchOf(s, CompressRatio(c)), StockEntries(c.maxModelLen), e, 0)
  {
    hide Chunks, CompressRatio, FullEntries, Compressed;
    var t := BatchOf(s, CompressRatio(c));
    if Min(c.maxNumSeqs, c.maxNumBatchedTokens) < 2 {
      OneTokenEach(s.queryLens, |s.queryLens|);
      LoneRequest(t, ws, StockEntries(c.maxModelLen), e);
    } else if ws != StockEntries(c.maxModelLen) {
      LegalFull(c, s);
      LargeWorkspacesAgree(t, ws, StockEntries(c.maxModelLen), e, 0);
    }
  }

  lemma {:induction false} InsufficientWorkspace(c: Config, ws: nat)
    requires var stock := StockEntries(c.maxModelLen);
             Min(c.maxNumSeqs, c.maxNumBatchedTokens) >= 2 && ws != stock && Min(ws, stock) < FullEntries(c)
    ensures !KeepsChunks(c, ws)
  {
    hide Chunks, CompressRatio, Span, Compressed, StepOf, Spread, StockEntries;
    var stock, n, per := StockEntries(c.maxModelLen), MaxPrefillReqs(c), Span(c) / CompressRatio(c);
    var low := Min(ws, stock);
    var z := Spread(low + 1, per, n);
    var s := StepOf(z, CompressRatio(c));
    var t := BatchOf(s, CompressRatio(c));
    SpreadSum(low + 1, per, n);
    StepOfIsLegal(c, z);
    CompressedStepOf(z, CompressRatio(c));
    OneEach(z, CompressRatio(c));
    SmallerWorkspaceCuts(t, low + 1, low, n * (low + 1));
    LargeWorkspacesAgree(t, low + 1, Max(ws, stock), n * (low + 1), 0);
    assert Chunks(t, ws, n * (low + 1), 0) != Chunks(t, stock, n * (low + 1), 0);
  }

  lemma {:induction false} OneEach(z: seq<nat>, ratio: nat)
    requires ratio > 0
    ensures var q := StepOf(z, ratio).queryLens;
            |q| == |z| && Sum(q, 0, |z|) == |z| && forall i | 0 <= i < |z| :: q[i] == 1
  {
    ConstantSum(StepOf(z, ratio).queryLens, 1, |z|);
  }

  /** The right-sized value keeps the chunks and is the least that does, up to the rounding of one
      entry per request; when the ratio divides the span there is no slack at all. */
  lemma {:induction false} RightsizedIsLeast(c: Config)
    requires CompressRatio(c) > 1
    ensures var least := Min(FullEntries(c), StockEntries(c.maxModelLen));
            && KeepsChunks(c, RightsizedEntries(c))
            && least <= RightsizedEntries(c) <= least + MaxPrefillReqs(c)
            && (Span(c) % CompressRatio(c) == 0 ==> RightsizedEntries(c) == least)
            && (Min(c.maxNumSeqs, c.maxNumBatchedTokens) >= 2 ==> forall ws: nat | ws < least :: !KeepsChunks(c, ws))
  {
    hide KeepsChunks, Span;
    var stock, n := StockEntries(c.maxModelLen), MaxPrefillReqs(c);
    RoundingUp(Span(c), CompressRatio(c), n);
    WorkspaceSufficesIff(c, RightsizedEntries(c));
    forall ws: nat | ws < Min(FullEntries(c), stock) && Min(c.maxNumSeqs, c.maxNumBatchedTokens) >= 2
      ensures !KeepsChunks(c, ws)
    {
      WorkspaceSufficesIff(c, ws);
    }
  }

  lemma {:induction false} RoundingUp(span: nat, ratio: nat, n: nat)
    requires ratio > 0
    ensures span / ratio * n <= CeilDiv(span, ratio) * n <= span / ratio * n + n
    ensures span % ratio == 0 ==> CeilDiv(span, ratio) == span / ratio
  {
    CeilIsNext(span, ratio);
    hide CeilDiv;
    ScaledNext(span / ratio, CeilDiv(span, ratio), n);
  }

  lemma {:induction false} CeilIsNext(span: nat, ratio: nat)
    requires ratio > 0
    ensures span / ratio <= CeilDiv(span, ratio) <= span / ratio + 1
    ensures span % ratio == 0 ==> CeilDiv(span, ratio) == span / ratio
  {
    var d, rest := span / ratio, span % ratio;
    assert span == ratio * d + rest;
    if rest == 0 {
      DivUnique(span + ratio - 1, ratio, d, ratio - 1);
    } else {
      assert (d + 1) * ratio == ratio * d + ratio;
      DivUnique(span + ratio - 1, ratio, d + 1, rest - 1);
    }
  }

  lemma {:induction false} ScaledNext(d: nat, e: nat, n: nat)
    requires d <= e <= d + 1
    ensures d * n <= e * n <= d * n + n
  {
    if e == d + 1 { assert e * n == d * n + n; }
  }

  lemma {:induction false} SmallerWorkspaceCuts(t: Batch, total: nat, ws: nat, e: nat)
    requires t.Valid() && |t.q| > 1 && t.q[0] >= 1
    requires Sum(t.s, 0, |t.q|) == total && Sum(t.q, 0, |t.q|) * total <= e && ws < total
    ensures Chunks(t, total, e, 0) != Chunks(t, ws, e, 0)
  {
    WholeBatchSlice(t, total, e);
    FirstSlice(t, ws, e);
    FirstSlice(t, total, e);
    assert !Fits(t, ws, e, 0, |t.q|);
    hide Chunks, Fits, Sum;
  }

  lemma {:induction false} WholeBatchSlice(t: Batch, ws: nat, e: nat)
    requires t.Valid() && |t.q| > 1 && Fits(t, ws, e, 0, |t.q|)
    ensures SliceEnd(t, ws, e, 0, 1) == |t.q|
  {
    var b := SliceEnd(t, ws, e, 0, 1);
    if b < |t.q| { FitsShorter(t, ws, e, 0, b + 1, |t.q|); }
  }

  lemma {:induction false} FirstSlice(t: Batch, ws: nat, e: nat)
    requires t.Valid() && |t.q| > 0 && t.q[0] >= 1
    ensures Chunks(t, ws, e, 0) != [] && Chunks(t, ws, e, 0)[0].reqEnd == SliceEnd(t, ws, e, 0, 1)
  {
    var b := SliceEnd(t, ws, e, 0, 1);
    SumConcat(t.q, 0, 1, b);
    assert Sum(t.q, 0, 1) == Sum(t.q, 0, 0) + t.q[0];
    var m := Sum(t.q, 0, b);
    assert SubChunks(0, b, m, MaxRows(m, Sum(t.s, 0, b), e), 0) != [];
  }
}
