/** `apply_exl3_fused_moe`: which launches and fallbacks a layer call makes, what it adds, and
    what the diagnostic counters say afterwards. */
module MoeDispatch {
  import opened MoeRouting
  import opened MoePasses
  import opened FatScratch
  import opened Totals
  import opened Arith
  import opened Wrappers

  datatype Tier = Kernel | Batched | SortedTier | Legacy

  datatype Reason =
    | NoFatExperts | ThinOnly | RowTilePreemptsFat
    | KernelOk | BatchedOk | SortedOk | DegradedSharedSuh | LegacyDefault

  datatype Label = NoFallback | RowTile | OnTier(tier: Tier)

  /** The environment switches the dispatcher reads. */
  datatype Knobs = Knobs(fatKernel: bool, batched: bool, sorted: bool, rowTile: bool) {
    predicate WantBatched() { batched || fatKernel }
    predicate UseSorted() { sorted || WantBatched() }
  }

  /** The fat-kernel symbols of the extension, under the pipelined names when the pipeline is on;
      the pipeline checks them up front. */
  datatype Symbols = Symbols(pipeline: bool, gemm: bool, scatter: bool) {
    predicate Complete() { gemm && scatter }
  }

  datatype Path = Single | AllThin | Tiles | Fallback(tier: Tier)

  function TierOf(k: Knobs, sharedSuh: bool): Tier {
    if k.WantBatched() && sharedSuh then (if k.fatKernel then Kernel else Batched)
    else if k.UseSorted() then SortedTier
    else Legacy
  }

  function ReasonOf(k: Knobs, tier: Tier): Reason {
    match tier
    case Kernel => KernelOk
    case Batched => BatchedOk
    case SortedTier => if k.WantBatched() then DegradedSharedSuh else SortedOk
    case Legacy => LegacyDefault
  }

  function PathOf(k: Knobs, sharedSuh: bool, tokens: nat, cap: nat, maxRows: nat): Path {
    if tokens <= cap then Single
    else if maxRows <= cap then AllThin
    else if k.rowTile then Tiles
    else Fallback(TierOf(k, sharedSuh))
  }

  function PathReason(k: Knobs, path: Path): Reason {
    match path
    case Single => NoFatExperts
    case AllThin => ThinOnly
    case Tiles => RowTilePreemptsFat
    case Fallback(tier) => ReasonOf(k, tier)
  }

  function PathLabel(path: Path): Label {
    match path
    case Single => NoFallback
    case AllThin => NoFallback
    case Tiles => RowTile
    case Fallback(tier) => OnTier(tier)
  }

  /** Which way a call goes, switch by switch: row tiles preempt every tier, the kernel implies the
      batched tier, both need the shared input scales, and without them they degrade to the sorted
      tier; only with all three switches off is the legacy loop used. */
  lemma {:induction false} PathTable(k: Knobs, sharedSuh: bool, tokens: nat, cap: nat, maxRows: nat)
    ensures var path := PathOf(k, sharedSuh, tokens, cap, maxRows);
            var falls := tokens > cap && maxRows > cap && !k.rowTile;
            && (path == Single <==> tokens <= cap)
            && (path == AllThin <==> tokens > cap && maxRows <= cap)
            && (path == Tiles <==> tokens > cap && maxRows > cap && k.rowTile)
            && (path == Fallback(Kernel) <==> falls && sharedSuh && k.fatKernel)
            && (path == Fallback(Batched) <==> falls && sharedSuh && k.batched && !k.fatKernel)
            && (path == Fallback(SortedTier) <==>
                falls && !(sharedSuh && (k.fatKernel || k.batched)) && (k.sorted || k.batched || k.fatKernel))
            && (path == Fallback(Legacy) <==> falls && !k.sorted && !k.batched && !k.fatKernel)
            && (path == Fallback(SortedTier) ==>
                (PathReason(k, path) == DegradedSharedSuh <==> !sharedSuh && (k.fatKernel || k.batched)))
  {
  }

  /** How each way is labelled and counted. */
  lemma {:induction false} LabelTable(k: Knobs, path: Path)
    ensures PathLabel(path) == NoFallback <==> path == Single || path == AllThin
    ensures PathLabel(path) == RowTile <==> path == Tiles
    ensures forall tier: Tier :: PathLabel(path) == OnTier(tier) <==> path == Fallback(tier)
    ensures PathReason(k, path) == NoFatExperts <==> path == Single
    ensures PathReason(k, path) == ThinOnly <==> path == AllThin
    ensures PathReason(k, path) == RowTilePreemptsFat <==> path == Tiles
    ensures PathReason(k, path) == KernelOk <==> path == Fallback(Kernel)
    ensures PathReason(k, path) == BatchedOk <==> path == Fallback(Batched)
    ensures PathReason(k, path) == LegacyDefault <==> path == Fallback(Legacy)
    ensures PathReason(k, path) == DegradedSharedSuh <==> path == Fallback(SortedTier) && (k.batched || k.fatKernel)
  {
  }

  // What each path adds, and when that is what the reference loop adds.

  function FusedCounts(r: Routing, n: nat, emap: Option<seq<int>>): (c: seq<nat>)
    requires r.Valid()
    ensures |c| == n
  {
    Counts(FusedItems(r, n, emap), n)
  }

  ghost function Reference(r: Routing, n: nat, emap: Option<seq<int>>): multiset<Contribution>
    requires r.Valid()
  {
    Select(LoopItems(r, n, emap), Experts(n))
  }

  /** What the reference loop computes, in terms of the routing alone: expert `c.expert` adds
      weight `c.weight` to token `c.token` once for each of that token's choices that carries this
      weight and names the expert, through the map where the map reaches the id. */
  lemma {:induction false} ReferenceByChoice(r: Routing, n: nat, emap: Option<seq<int>>, c: Contribution)
    requires r.Valid()
    ensures c.token < r.tokens ==> c.token * r.topk + r.topk <= |r.ids|
    ensures Reference(r, n, emap)[c] ==
            if c.expert < n && c.token < r.tokens then
              var row := c.token * r.topk;
              var ids, weights := r.ids[row..row + r.topk], r.weights[row..row + r.topk];
              |set k: nat | k < r.topk && weights[k] == c.weight && ids[k] >= 0 &&
                            c.expert == if emap.Some? && ids[k] < |emap.value| then emap.value[ids[k]] else ids[k]|
            else 0
  {
    var row := c.token * r.topk;
    if c.token < r.tokens { RowInRange(r, c.token); }
    if c.expert < n && c.token < r.tokens {
      ReferenceInRow(r, n, emap, c, row);
    } else {
      SelectCount(LoopItems(r, n, emap), Experts(n), c);
      hide Select, LoopItems, Experts;
      if c.expert < n { TokenNotInRouting(r, n, emap, c); }
    }
  }

  lemma {:induction false} ReferenceInRow(r: Routing, n: nat, emap: Option<seq<int>>, c: Contribution, row: nat)
    requires r.Valid() && row == c.token * r.topk && row + r.topk <= |r.ids| && c.expert < n && c.token < r.tokens
    ensures var ids, weights := r.ids[row..row + r.topk], r.weights[row..row + r.topk];
            Reference(r, n, emap)[c] ==
            |set k: nat | k < r.topk && weights[k] == c.weight && ids[k] >= 0 &&
                          c.expert == if emap.Some? && ids[k] < |emap.value| then emap.value[ids[k]] else ids[k]|
  {
    assert |LoopItems(r, n, emap)| == |r.ids|;
    hide Select, LoopItems;
    SelectCount(LoopItems(r, n, emap), Experts(n), c);
    CountInRow(r, n, emap, c, row);
    CountSet(LoopItems(r, n, emap)[row..row + r.topk], c);
    NamedChoices(r, n, emap, c, row);
  }

  lemma {:induction false} RowInRange(r: Routing, t: nat)
    requires r.Valid() && t < r.tokens
    ensures t * r.topk + r.topk <= |r.ids|
  {
    MulMonotone(t + 1, r.tokens, r.topk);
    assert (t + 1) * r.topk == t * r.topk + r.topk;
  }

  lemma {:induction false} PairOfItem(r: Routing, i: nat)
    requires r.Valid() && i < |r.ids|
    ensures var t := r.TokenOf(i); t < r.tokens && t * r.topk <= i < t * r.topk + r.topk
  {
    assert r.topk > 0;
    Quotient(i, r.topk);
    if r.tokens <= i / r.topk { MulMonotone(r.tokens, i / r.topk, r.topk); }
  }

  lemma {:induction false} TokenNotInRouting(r: Routing, n: nat, emap: Option<seq<int>>, c: Contribution)
    requires r.Valid() && r.tokens <= c.token
    ensures multiset(LoopItems(r, n, emap))[c] == 0
  {
    var items := LoopItems(r, n, emap);
    if c in items {
      var i: nat :| i < |items| && items[i] == c;
      PairOfItem(r, i);
    }
  }

  /** All items equal to `c` stand in the row of its token. */
  lemma {:induction false} CountInRow(r: Routing, n: nat, emap: Option<seq<int>>, c: Contribution, row: nat)
    requires r.Valid() && row == c.token * r.topk && row + r.topk <= |r.ids|
    ensures var items := LoopItems(r, n, emap);
            multiset(items)[c] == multiset(items[row..row + r.topk])[c]
  {
    var items := LoopItems(r, n, emap);
    var before, mid, after := items[..row], items[row..row + r.topk], items[row + r.topk..];
    assert items == before + mid + after;
    forall i | 0 <= i < |items| && items[i] == c ensures row <= i < row + r.topk {
      PairOfItem(r, i);
    }
    assert c !in before && c !in after;
  }

  lemma {:induction false} NamedChoices(r: Routing, n: nat, emap: Option<seq<int>>, c: Contribution, row: nat)
    requires r.Valid() && row == c.token * r.topk && row + r.topk <= |r.ids| && c.expert < n && c.token < r.tokens
    ensures var ids, weights := r.ids[row..row + r.topk], r.weights[row..row + r.topk];
            var items := LoopItems(r, n, emap)[row..row + r.topk];
            (set k: nat | k < |items| && items[k] == c) ==
            set k: nat | k < r.topk && weights[k] == c.weight && ids[k] >= 0 &&
                         c.expert == if emap.Some? && ids[k] < |emap.value| then emap.value[ids[k]] else ids[k]
  {
    var items := LoopItems(r, n, emap)[row..row + r.topk];
    forall k | 0 <= k < |items| ensures items[k] == LoopItem(r, n, emap, row + k) && items[k].token == c.token {
      PairOfToken(r, c.token, k);
    }
  }

  lemma {:induction false} CountSet(s: seq<Contribution>, c: Contribution)
    ensures multiset(s)[c] == |set k: nat | k < |s| && s[k] == c|
  {
    if s == [] {
    } else {
      var m := |s| - 1;
      CountSet(s[..m], c);
      assert s == s[..m] + [s[m]];
      var sooner := set k: nat | k < m && s[..m][k] == c;
      assert (set k: nat | k < |s| && s[k] == c) == if s[m] == c then sooner + {m} else sooner;
    }
  }

  ghost function Added(path: Path, r: Routing, n: nat, emap: Option<seq<int>>, cap: nat): multiset<Contribution>
    requires r.Valid()
  {
    var items, counts := FusedItems(r, n, emap), FusedCounts(r, n, emap);
    match path
    case Single => Select(items, Thin(counts, cap))
    case AllThin => Select(items, Experts(n))
    case Tiles => Select(items, Experts(n))
    case Fallback(tier) =>
      if tier.Legacy? then Select(items, Thin(counts, cap)) + Select(LoopItems(r, n, emap), Fat(counts, cap))
      else Select(items, Experts(n))
  }

  ghost predicate OnMap(r: Routing, n: nat, emap: Option<seq<int>>)
  {
    forall i | 0 <= i < |r.ids| :: !OffMap(r.ids[i], n, emap)
  }

  /** What a caller can check on the routing: no id lies past the expert map (the legacy tier
      tolerates such ids on oversized experts), and a single launch has no oversized expert. */
  ghost predicate Faithful(path: Path, r: Routing, n: nat, emap: Option<seq<int>>, cap: nat)
    requires r.Valid()
  {
    var counts := FusedCounts(r, n, emap);
    match path
    case Single => OnMap(r, n, emap) && forall e | 0 <= e < n :: counts[e] <= cap
    case Fallback(tier) =>
      if tier.Legacy? then forall i | 0 <= i < |r.ids| :: OffMap(r.ids[i], n, emap) ==> counts[r.ids[i]] > cap
      else OnMap(r, n, emap)
    case _ => OnMap(r, n, emap)
  }

  lemma {:induction false} Cancel<T>(a: multiset<T>, b: multiset<T>)
    ensures a == a + b <==> b == multiset{}
  {
    if b != multiset{} { assert |a + b| == |a| + |b|; }
  }

  lemma {:induction false} SplitByCap(s: seq<Contribution>, counts: seq<nat>, cap: nat)
    ensures Select(s, Experts(|counts|)) == Select(s, Thin(counts, cap)) + Select(s, Fat(counts, cap))
  {
    SelectDisjoint(s, Thin(counts, cap), Fat(counts, cap));
    assert Thin(counts, cap) + Fat(counts, cap) == Experts(|counts|);
  }

  lemma {:induction false} OffMapEmpty(r: Routing, n: nat, emap: Option<seq<int>>, keep: set<nat>)
    requires r.Valid() && keep <= Experts(n)
    ensures Select(OffMapItems(r, n, emap), keep) == multiset{} <==>
            forall i | 0 <= i < |r.ids| :: OffMap(r.ids[i], n, emap) ==> r.ids[i] !in keep
  {
    var d := OffMapItems(r, n, emap);
    SelectEmpty(d, keep);
    assert n !in keep;
    forall i | 0 <= i < |r.ids|
      ensures d[i].expert in keep <==> OffMap(r.ids[i], n, emap) && r.ids[i] in keep
    {
      assert d[i] == OffMapItem(r, n, emap, i);
    }
  }

  lemma {:induction false} FatEmpty(s: seq<Contribution>, n: nat, cap: nat)
    ensures Select(s, Fat(Counts(s, n), cap)) == multiset{} <==> forall e | 0 <= e < n :: Counts(s, n)[e] <= cap
  {
    var fat := Fat(Counts(s, n), cap);
    SelectEmpty(s, fat);
    if e :| 0 <= e < n && Counts(s, n)[e] > cap {
      var i := Occurrence(ExpertsOf(s), e);
      assert s[i].expert in fat;
    }
  }

  /** Launching the thin experts alone is the whole pass exactly when nothing is left out. */
  lemma {:induction false} SingleIffReference(items: seq<Contribution>, loop: multiset<Contribution>,
    off: multiset<Contribution>, n: nat, cap: nat)
    requires loop == Select(items, Experts(n)) + off
    ensures Select(items, Thin(Counts(items, n), cap)) == loop <==>
            off == multiset{} && forall e | 0 <= e < n :: Counts(items, n)[e] <= cap
  {
    hide Select, Counts;
    var counts := Counts(items, n);
    SplitByCap(items, counts, cap);
    FatEmpty(items, n, cap);
    var thin, fat := Select(items, Thin(counts, cap)), Select(items, Fat(counts, cap));
    Cancel(thin, fat + off);
    assert thin + (fat + off) == loop;
    assert fat + off == multiset{} <==> fat == multiset{} && off == multiset{} by {
      assert |fat + off| == |fat| + |off|;
    }
  }

  /** The legacy tier runs the oversized experts through the loop's own mapping, so it misses
      only what lies off the map on thin experts. */
  lemma {:induction false} LegacyIffReference(items: seq<Contribution>, loop: seq<Contribution>, off: seq<Contribution>,
    counts: seq<nat>, cap: nat)
    requires Select(loop, Experts(|counts|)) == Select(items, Experts(|counts|)) + Select(off, Experts(|counts|))
    requires Select(loop, Fat(counts, cap)) == Select(items, Fat(counts, cap)) + Select(off, Fat(counts, cap))
    ensures Select(items, Thin(counts, cap)) + Select(loop, Fat(counts, cap)) == Select(loop, Experts(|counts|)) <==>
            Select(off, Thin(counts, cap)) == multiset{}
  {
    hide Select;
    var thin, fat := Thin(counts, cap), Fat(counts, cap);
    SplitByCap(items, counts, cap);
    SplitByCap(off, counts, cap);
    hide Thin, Fat, Experts;
    var have := Select(items, thin) + Select(loop, fat);
    Cancel(have, Select(off, thin));
    assert have + Select(off, thin) == Select(loop, Experts(|counts|));
  }

  /** A path adds what the reference loop adds exactly when it is faithful. */
  lemma {:induction false} FaithfulIffReference(
    path: Path, r: Routing, n: nat, emap: Option<seq<int>>, cap: nat)
    requires r.Valid()
    ensures Added(path, r, n, emap, cap) == Reference(r, n, emap) <==> Faithful(path, r, n, emap, cap)
  {
    hide Select, FusedItems, LoopItems, OffMapItems, Counts;
    var items, loop, off := FusedItems(r, n, emap), LoopItems(r, n, emap), OffMapItems(r, n, emap);
    var counts := FusedCounts(r, n, emap);
    LoopSplit(r, n, emap, Experts(n));
    OffMapEmpty(r, n, emap, Experts(n));
    if path.Single? {
      SingleIffReference(items, Select(loop, Experts(n)), Select(off, Experts(n)), n, cap);
    } else if path.Fallback? && path.tier.Legacy? {
      LoopSplit(r, n, emap, Fat(counts, cap));
      OffMapEmpty(r, n, emap, Thin(counts, cap));
      LegacyIffReference(items, loop, off, counts, cap);
    } else {
      Cancel(Select(items, Experts(n)), Select(off, Experts(n)));
    }
  }

  // Maps that cover the local experts.

  /** With no map, or one at least as long as the expert list, no id lies past it. */
  lemma {:induction false} CoveringMapIsOnMap(r: Routing, n: nat, emap: Option<seq<int>>)
    requires emap.None? || n <= |emap.value|
    ensures OnMap(r, n, emap)
  {
  }

  /** Then every prefill path is the reference loop for every routing, and the single launch is
      exactly when no expert exceeds the cap. */
  lemma {:induction false} CoveringMapIsExact(path: Path, r: Routing, n: nat, emap: Option<seq<int>>, cap: nat)
    requires r.Valid() && (emap.None? || n <= |emap.value|)
    ensures path != Single ==> Added(path, r, n, emap, cap) == Reference(r, n, emap)
    ensures Added(Single, r, n, emap, cap) == Reference(r, n, emap) <==>
            forall e | 0 <= e < n :: FusedCounts(r, n, emap)[e] <= cap
  {
    hide Added, Reference, FusedCounts;
    CoveringMapIsOnMap(r, n, emap);
    FaithfulIffReference(path, r, n, emap, cap);
    FaithfulIffReference(Single, r, n, emap, cap);
  }

  /** A shorter map does lose rows: two experts, a map that only knows id 0, and a pair for id 1. */
  lemma {:induction false} IdPastMapIsDropped()
    ensures var r, emap := Routing(1, 1, [1], [1.0]), Some([0]);
            && r.Valid() && !OnMap(r, 2, emap)
            && Added(AllThin, r, 2, emap, 1) == multiset{}
            && Contribution(1, 0, 1.0) in Reference(r, 2, emap)
  {
    var r, emap := Routing(1, 1, [1], [1.0]), Some([0]);
    assert OffMap(r.ids[0], 2, emap);
    SelectEmpty(FusedItems(r, 2, emap), Experts(2));
    var loop := LoopItems(r, 2, emap);
    SelectCount(loop, Experts(2), Contribution(1, 0, 1.0));
    assert loop[0] == Contribution(1, 0, 1.0);
    assert loop[0] in multiset(loop);
  }

  // A single launch is safe when every token's experts are distinct.

  ghost predicate DistinctExperts(r: Routing, n: nat, emap: Option<seq<int>>)
    requires r.Valid()
  {
    forall i, j | 0 <= i < j < |r.ids| && r.TokenOf(i) == r.TokenOf(j)
      :: MapTopkToLocal(r.ids[i], n, emap) != MapTopkToLocal(r.ids[j], n, emap)
         || MapTopkToLocal(r.ids[i], n, emap) == n
  }

  lemma {:induction false} AtMostOnce(k: seq<nat>, e: nat)
    requires forall i, j | 0 <= i < j < |k| :: k[i] != k[j] || k[i] != e
    ensures multiset(k)[e] <= 1
  {
    if k == [] {
    } else {
      var m := |k| - 1;
      AtMostOnce(k[..m], e);
      assert k == k[..m] + [k[m]];
      if k[m] == e { NotIn(k[..m], e); }
    }
  }

  /** No expert occurs twice among the pairs of one token. */
  ghost predicate OncePerSegment(k: seq<nat>, topk: nat, e: nat)
    requires topk > 0
  {
    forall i, j | 0 <= i < j < |k| && i / topk == j / topk :: k[i] != k[j] || k[i] != e
  }

  lemma {:induction false} SegmentOnce(k: seq<nat>, topk: nat, t: nat, lo: nat, e: nat)
    requires topk > 0 && lo == t * topk && lo + topk <= |k| && OncePerSegment(k, topk, e)
    ensures multiset(k[lo..lo + topk])[e] <= 1
  {
    var seg := k[lo..lo + topk];
    forall i, j | 0 <= i < j < |seg| ensures seg[i] != seg[j] || seg[i] != e {
      SameToken(topk, t, i);
      SameToken(topk, t, j);
      assert seg[i] == k[lo + i] && seg[j] == k[lo + j];
    }
    AtMostOnce(seg, e);
  }

  lemma {:induction false} OncePerToken(k: seq<nat>, topk: nat, t: nat, hi: nat, e: nat)
    requires topk > 0 && hi == t * topk <= |k| && OncePerSegment(k, topk, e)
    ensures multiset(k[..hi])[e] <= t
    decreases t
  {
    hide OncePerSegment;
    if t == 0 {
      assert k[..0] == [];
    } else {
      var lo := (t - 1) * topk;
      assert lo + topk == hi;
      OncePerToken(k, topk, t - 1, lo, e);
      SegmentOnce(k, topk, t - 1, lo, e);
      assert k[..hi] == k[..lo] + k[lo..hi];
    }
  }

  lemma {:induction false} SameToken(topk: nat, t: nat, i: nat)
    requires i < topk
    ensures (t * topk + i) / topk == t
  {
    DivUnique(t * topk + i, topk, t, i);
  }

  /** No expert can receive more rows than there are tokens, so `tokens <= cap` is enough. */
  lemma {:induction false} DistinctExpertsFitOneLaunch(r: Routing, n: nat, emap: Option<seq<int>>, cap: nat)
    requires r.Valid() && DistinctExperts(r, n, emap) && r.tokens <= cap
    ensures forall e | 0 <= e < n :: FusedCounts(r, n, emap)[e] <= cap
  {
    var items := FusedItems(r, n, emap);
    var k := ExpertsOf(items);
    assert forall i | 0 <= i < |k| :: k[i] == MapTopkToLocal(r.ids[i], n, emap);
    forall e | 0 <= e < n ensures FusedCounts(r, n, emap)[e] <= cap {
      if r.topk == 0 {
        assert k == [];
      } else {
        assert forall i | 0 <= i < |k| :: r.TokenOf(i) == i / r.topk;
        OncePerToken(k, r.topk, r.tokens, |k|, e);
        assert k[..|k|] == k;
      }
    }
  }

  /** Without distinctness the single launch loses rows: one token, top-2, both on expert 0. */
  lemma {:induction false} RepeatedExpertIsDropped()
    ensures var r := Routing(1, 2, [0, 0], [1.0, 2.0]);
            && r.Valid() && r.tokens <= 1
            && Added(Single, r, 1, None, 1) == multiset{}
            && Contribution(0, 0, 1.0) in Reference(r, 1, None)
  {
    var r := Routing(1, 2, [0, 0], [1.0, 2.0]);
    var items := FusedItems(r, 1, None);
    assert ExpertsOf(items) == [0, 0];
    assert FusedCounts(r, 1, None) == [2];
    SelectEmpty(items, Thin(FusedCounts(r, 1, None), 1));
    var loop := LoopItems(r, 1, None);
    SelectCount(loop, Experts(1), Contribution(0, 0, 1.0));
    assert loop[0] == Contribution(0, 0, 1.0);
    assert loop[0] in multiset(loop);
  }

  // Counters.

  class FatDiag {
    var prefillLayerCalls: nat
    var thinCalls: nat
    var rowTileCalls: nat
    var fallbackCalls: map<Tier, nat>
    var fallbackReasons: map<Reason, nat>
    var fatExpertRuns: nat
    var directCalls: nat
    var scatterCalls: nat

    ghost predicate Valid()
      reads this
    {
      && fallbackCalls.Keys == {Kernel, Batched, SortedTier, Legacy}
      && prefillLayerCalls == thinCalls + rowTileCalls + MapSum(fallbackCalls)
      && prefillLayerCalls == MapSum(fallbackReasons)
      && scatterCalls <= directCalls <= fatExpertRuns
    }

    /** The call has been counted, but not yet the way it went. */
    ghost predicate Pending()
      reads this
    {
      && fallbackCalls.Keys == {Kernel, Batched, SortedTier, Legacy}
      && prefillLayerCalls == 1 + thinCalls + rowTileCalls + MapSum(fallbackCalls)
      && prefillLayerCalls == 1 + MapSum(fallbackReasons)
      && scatterCalls <= directCalls <= fatExpertRuns
    }

    constructor ()
      ensures Valid() && prefillLayerCalls == 0
    {
      prefillLayerCalls, thinCalls, rowTileCalls := 0, 0, 0;
      fallbackCalls, fallbackReasons := NoFallbacks(), map[];
      fatExpertRuns, directCalls, scatterCalls := 0, 0, 0;
      NoFallbacksSum();
    }

    static function NoFallbacks(): map<Tier, nat> {
      map[Kernel := 0, Batched := 0, SortedTier := 0, Legacy := 0]
    }

    static lemma NoFallbacksSum()
      ensures MapSum(NoFallbacks()) == 0
    {
      var m: map<Tier, nat> := map[];
      MapSumUpdate(m, Kernel, 0);
      assert m - {Kernel} == m;
      MapSumUpdate(m[Kernel := 0], Batched, 0);
      MapSumUpdate(m[Kernel := 0][Batched := 0], SortedTier, 0);
      MapSumUpdate(m[Kernel := 0][Batched := 0][SortedTier := 0], Legacy, 0);
      assert m[Kernel := 0][Batched := 0][SortedTier := 0][Legacy := 0] == NoFallbacks();
    }

    method Reset()
      modifies this
      ensures Valid() && prefillLayerCalls == 0 && fallbackReasons == map[]
    {
      prefillLayerCalls, thinCalls, rowTileCalls := 0, 0, 0;
      fallbackCalls, fallbackReasons := NoFallbacks(), map[];
      fatExpertRuns, directCalls, scatterCalls := 0, 0, 0;
      NoFallbacksSum();
    }

    method RecordReason(reason: Reason)
      modifies this`fallbackReasons
      ensures MapSum(fallbackReasons) == old(MapSum(fallbackReasons)) + 1
      ensures fallbackReasons == old(Bumped(fallbackReasons, reason))
      ensures Get(fallbackReasons, reason) == old(Get(fallbackReasons, reason)) + 1
      ensures forall other: Reason :: other != reason ==>
                Get(fallbackReasons, other) == old(Get(fallbackReasons, other))
    {
      MapSumUpdate(fallbackReasons, reason, Get(fallbackReasons, reason) + 1);
      fallbackReasons := Bumped(fallbackReasons, reason);
    }

    method RecordTier(tier: Tier, reason: Reason, layer: MoeLayer)
      requires tier in fallbackCalls
      modifies this`fallbackReasons, this`fallbackCalls, layer`lastFallback, layer`lastReason
      ensures MapSum(fallbackReasons) == old(MapSum(fallbackReasons)) + 1
      ensures MapSum(fallbackCalls) == old(MapSum(fallbackCalls)) + 1
      ensures fallbackReasons == old(Bumped(fallbackReasons, reason))
      ensures fallbackCalls == old(Bumped(fallbackCalls, tier))
      ensures layer.lastFallback == OnTier(tier) && layer.lastReason == reason
    {
      MapSumUpdate(fallbackCalls, tier, fallbackCalls[tier] + 1);
      fallbackCalls := fallbackCalls[tier := fallbackCalls[tier] + 1];
      RecordReason(reason);
      layer.lastFallback, layer.lastReason := OnTier(tier), reason;
    }
  }

  function Get<K(==)>(m: map<K, nat>, k: K): nat {
    if k in m then m[k] else 0
  }

  function Bumped<K(==)>(m: map<K, nat>, k: K): map<K, nat> {
    m[k := Get(m, k) + 1]
  }

  class MoeLayer {
    const sharedSuh: bool
    const gates: seq<Gate>   // one per local expert
    var lastFallback: Label
    var lastReason: Reason

    constructor (sharedSuh: bool, gates: seq<Gate>)
      ensures this.sharedSuh == sharedSuh && this.gates == gates
    {
      this.sharedSuh, this.gates := sharedSuh, gates;
      lastFallback, lastReason := NoFallback, NoFatExperts;
    }
  }

  lemma {:induction false} FatCountGrows(counts: seq<nat>, cap: nat, a: nat, b: nat)
    requires a <= b <= |counts|
    ensures FatCount(counts, cap, a) <= FatCount(counts, cap, b)
    decreases b
  {
    if a == b {
    } else {
      FatCountGrows(counts, cap, a, b - 1);
    }
  }

  /** The expert runs that are counted are the experts that exceed the cap, each once. */
  lemma {:induction false} FatCountIsFat(counts: seq<nat>, cap: nat)
    ensures FatCount(counts, cap, |counts|) == |set e: nat | e < |counts| && counts[e] > cap|
  {
    FatCountUpTo(counts, cap, |counts|);
  }

  lemma {:induction false} FatCountUpTo(counts: seq<nat>, cap: nat, m: nat)
    requires m <= |counts|
    ensures FatCount(counts, cap, m) == |set e: nat | e < m && counts[e] > cap|
    decreases m
  {
    if m == 0 {
    } else {
      FatCountUpTo(counts, cap, m - 1);
      var sooner := set e: nat | e < m - 1 && counts[e] > cap;
      assert (set e: nat | e < m && counts[e] > cap) == if counts[m - 1] > cap then sooner + {m - 1} else sooner;
    }
  }

  lemma {:induction false} SomeFat(counts: seq<nat>, cap: nat, e: nat)
    requires e < |counts| && counts[e] > cap
    ensures FatCount(counts, cap, |counts|) > 0
  {
    FatCountGrows(counts, cap, e + 1, |counts|);
  }

  /** `apply_exl3_batched_fat`: the slices of `ApplySortedFat`, through the shared scratch. The
      kernel tier raises when a symbol it needs is missing, at the first oversized expert or,
      with the pipeline, before any. */
  method ApplyBatchedFat(tok: seq<nat>, w: seq<real>, counts: seq<nat>, cap: nat, out: Output, layer: MoeLayer,
                         useKernel: bool, sym: Symbols, diag: FatDiag, scratch: ScratchCache, device: string,
                         configured: int)
    returns (raised: bool)
    requires Offset(counts, |counts|) <= |tok| == |w| && |layer.gates| == |counts| && scratch.Valid()
    modifies out`added, diag`fatExpertRuns, diag`directCalls, diag`scatterCalls, scratch
    ensures scratch.Valid()
    ensures raised <==> useKernel && !sym.Complete() && (sym.pipeline || FatCount(counts, cap, |counts|) > 0)
    ensures !raised ==> forall c: Contribution ::
              out.added[c] == old(out.added)[c] + PassCount(c, counts, tok, w, Fat(counts, cap), |counts|)
    ensures !raised ==> diag.fatExpertRuns == old(diag.fatExpertRuns) + FatCount(counts, cap, |counts|)
    ensures !raised ==>
              && diag.directCalls == old(diag.directCalls) + (if useKernel then FatCount(counts, cap, |counts|) else 0)
              && diag.scatterCalls == old(diag.scatterCalls) + if useKernel then FatCount(counts, cap, |counts|) else 0
    ensures raised ==>
              && diag.scatterCalls == old(diag.scatterCalls) && old(diag.directCalls) <= diag.directCalls
              && diag.directCalls - old(diag.directCalls) <= diag.fatExpertRuns - old(diag.fatExpertRuns) <= 1
  {
    hide PairCount, PassCount, ScratchCache.Valid;
    if useKernel && sym.pipeline && !sym.Complete() {
      return true;
    }
    forall c: Contribution ensures PassCount(c, counts, tok, w, Fat(counts, cap), 0) == 0 {
      NothingPassed(c, counts, tok, w, Fat(counts, cap));
    }
    var offset := 0;
    for e := 0 to |counts|
      invariant offset == Offset(counts, e) <= |tok| && scratch.Valid()
      invariant useKernel && !sym.Complete() ==> FatCount(counts, cap, e) == 0
      invariant diag.fatExpertRuns == old(diag.fatExpertRuns) + FatCount(counts, cap, e)
      invariant diag.directCalls == old(diag.directCalls) + if useKernel then FatCount(counts, cap, e) else 0
      invariant diag.scatterCalls == old(diag.scatterCalls) + if useKernel then FatCount(counts, cap, e) else 0
      invariant forall c: Contribution ::
        out.added[c] == old(out.added)[c] + PassCount(c, counts, tok, w, Fat(counts, cap), e)
    {
      var start := offset;
      offset := offset + counts[e];
      OffsetMonotone(counts, e + 1, |counts|);
      forall c: Contribution { PassStep(c, counts, tok, w, Fat(counts, cap), e); }
      if counts[e] <= cap { continue; }
      raised := RunFatExpert(tok, w, e, start, offset, out, layer, useKernel, sym, diag, scratch, device, configured);
      if raised {
        SomeFat(counts, cap, e);
        return true;
      }
    }
    return false;
  }

  /** One oversized expert: its slice must fit the scratch it is given. */
  method RunFatExpert(tok: seq<nat>, w: seq<real>, e: nat, lo: nat, hi: nat, out: Output, layer: MoeLayer,
                      useKernel: bool, sym: Symbols, diag: FatDiag, scratch: ScratchCache, device: string,
                      configured: int)
    returns (raised: bool)
    requires lo <= hi <= |tok| == |w| && e < |layer.gates| && scratch.Valid()
    modifies out`added, diag`fatExpertRuns, diag`directCalls, diag`scatterCalls, scratch
    ensures scratch.Valid()
    ensures raised <==> useKernel && !sym.Complete()
    ensures var key := KeyOf(device, layer.gates[e]); key in scratch.rows && hi - lo <= scratch.rows[key]
    ensures diag.fatExpertRuns == old(diag.fatExpertRuns) + 1
    ensures diag.directCalls == old(diag.directCalls) + if useKernel && sym.gemm then 1 else 0
    ensures diag.scatterCalls == old(diag.scatterCalls) + if useKernel && sym.Complete() then 1 else 0
    ensures !raised ==> forall c: Contribution ::
              out.added[c] ==
              old(out.added)[c] + if c.expert == e then PairCount(c.token, c.weight, tok, w, lo, hi) else 0
  {
    hide PairCount, ScratchCache.Valid;
    diag.fatExpertRuns := diag.fatExpertRuns + 1;
    var rows := scratch.Request(device, hi - lo, layer.gates[e], configured);
    if useKernel {
      if !sym.gemm { return true; }
      diag.directCalls := diag.directCalls + 1;
      if !sym.scatter { return true; }
    }
    out.AddRows(e, tok, w, lo, hi);
    if useKernel { diag.scatterCalls := diag.scatterCalls + 1; }
    return false;
  }

  // One layer call.

  /** The buffers one call sorts its routing into. */
  datatype Buffers = Buffers(counts: seq<nat>, expertCount: seq<nat>, tok: seq<nat>, w: seq<real>)

  ghost predicate SortedBuffers(b: Buffers, r: Routing, n: nat, emap: Option<seq<int>>)
    requires r.Valid()
  {
    && b.counts == FusedCounts(r, n, emap)
    && |b.expertCount| == n + 1 && b.expertCount[..n] == b.counts
    && Offset(b.counts, n) <= |b.tok| == |b.w|
    && forall c: Contribution, keep | keep <= Experts(n) ::
         PassCount(c, b.counts, b.tok, b.w, keep, n) == Select(FusedItems(r, n, emap), keep)[c]
  }

  /** Map, argsort, gather and count. `order` is whatever the sort returned. */
  method SortRouting(r: Routing, n: nat, emap: Option<seq<int>>, order: seq<nat>) returns (b: Buffers)
    requires r.Valid() && IsArgsort(FusedItems(r, n, emap), order)
    ensures SortedBuffers(b, r, n, emap)
  {
    var items := FusedItems(r, n, emap);
    var s := Gather(items, order);
    GatherPermutes(items, order);
    CountsOfPermutation(s, items, n);
    var full := Counts(items, n + 1);
    assert full[..n] == Counts(items, n);
    b := Buffers(full[..n], full, TokensOf(s), WeightsOf(s));
    SortedSegments(s, n, n);
    forall c: Contribution, keep | keep <= Experts(n)
      ensures PassCount(c, b.counts, b.tok, b.w, keep, n) == Select(items, keep)[c]
    {
      PassIsSelect(s, n, keep, c);
      SelectOfPermutation(s, items, keep);
    }
  }

  function MaxOf(counts: seq<nat>): (m: nat)
    ensures forall e | 0 <= e < |counts| :: counts[e] <= m
    ensures if counts == [] then m == 0 else m in counts
  {
    if counts == [] then 0
    else
      var m := MaxOf(counts[..|counts| - 1]);
      if counts[|counts| - 1] >= m then counts[|counts| - 1] else m
  }

  ghost predicate CountersFor(path: Path, reason: Reason, fat: nat, before: Snapshot, diag: FatDiag)
    reads diag
  {
    && diag.prefillLayerCalls == before.prefill + (if path.Single? then 0 else 1)
    && diag.thinCalls == before.thin + (if path.AllThin? then 1 else 0)
    && diag.rowTileCalls == before.rowTile + (if path.Tiles? then 1 else 0)
    && diag.fallbackCalls == (if path.Fallback? then Bumped(before.calls, path.tier) else before.calls)
    && diag.fallbackReasons == (if path.Single? then before.reasons else Bumped(before.reasons, reason))
    && diag.fatExpertRuns == before.runs + (if path.Fallback? then fat else 0)
    && diag.directCalls == before.direct + (if path == Fallback(Kernel) then fat else 0)
    && diag.scatterCalls == before.scatter + (if path == Fallback(Kernel) then fat else 0)
  }

  datatype Snapshot = Snapshot(
    prefill: nat, thin: nat, rowTile: nat, calls: map<Tier, nat>, reasons: map<Reason, nat>,
    runs: nat, direct: nat, scatter: nat)

  ghost function Snap(diag: FatDiag): Snapshot
    reads diag
  {
    Snapshot(diag.prefillLayerCalls, diag.thinCalls, diag.rowTileCalls, diag.fallbackCalls, diag.fallbackReasons,
             diag.fatExpertRuns, diag.directCalls, diag.scatterCalls)
  }

  lemma {:induction false} SameMultiset(a: multiset<Contribution>, b: multiset<Contribution>)
    requires forall c: Contribution :: a[c] == b[c]
    ensures a == b
  {
  }

  /** The launch over the whole sorted buffer, on a fresh output. */
  method Launch(b: Buffers, ghost r: Routing, ghost n: nat, ghost emap: Option<seq<int>>, cap: nat, out: Output)
    requires r.Valid() && SortedBuffers(b, r, n, emap) && out.added == multiset{}
    modifies out
    ensures out.added == Select(FusedItems(r, n, emap), Thin(b.counts, cap))
    ensures out.launches == old(out.launches) + 1
  {
    hide Select, PassCount, FusedItems;
    out.ExlMoe(b.expertCount, b.tok, b.w, cap);
    SameMultiset(out.added, Select(FusedItems(r, n, emap), Thin(b.counts, cap)));
  }

  method LaunchTiles(b: Buffers, ghost r: Routing, ghost n: nat, ghost emap: Option<seq<int>>, cap: nat, maxRows: nat,
                     out: Output)
    requires r.Valid() && SortedBuffers(b, r, n, emap) && out.added == multiset{} && cap > 0
    requires maxRows == MaxOf(b.counts)
    modifies out
    ensures out.added == Select(FusedItems(r, n, emap), Experts(n))
    ensures out.launches == old(out.launches) + TilesFor(maxRows, cap)
  {
    hide Select, PassCount, FusedItems, TilesFor;
    assert maxRows in b.counts || maxRows == 0;
    ApplyRowTiles(b.counts, b.tok, b.w, cap, maxRows, out);
    SameMultiset(out.added, Select(FusedItems(r, n, emap), Experts(n)));
  }

  /** Thin and oversized rows together, from the sorted buffers. */
  lemma {:induction false} ThinPlusFat(b: Buffers, r: Routing, n: nat, emap: Option<seq<int>>, cap: nat,
                                       before: multiset<Contribution>, after: multiset<Contribution>)
    requires r.Valid() && SortedBuffers(b, r, n, emap)
    requires before == Select(FusedItems(r, n, emap), Thin(b.counts, cap))
    requires forall c: Contribution ::
      after[c] == before[c] + PassCount(c, b.counts, b.tok, b.w, Fat(b.counts, cap), n)
    ensures after == Select(FusedItems(r, n, emap), Experts(n))
  {
    hide Select, PassCount, FusedItems;
    SplitByCap(FusedItems(r, n, emap), b.counts, cap);
    SameMultiset(after, Select(FusedItems(r, n, emap), Experts(n)));
  }

  method RunBatchedTier(b: Buffers, ghost r: Routing, ghost n: nat, ghost emap: Option<seq<int>>, cap: nat,
                        kernel: bool, sym: Symbols, layer: MoeLayer, diag: FatDiag, scratch: ScratchCache,
                        device: string, configured: int, out: Output)
    returns (raised: bool)
    requires r.Valid() && SortedBuffers(b, r, n, emap) && |layer.gates| == n && scratch.Valid()
    requires out.added == Select(FusedItems(r, n, emap), Thin(b.counts, cap)) && FatCount(b.counts, cap, n) > 0
    modifies out`added, diag`fatExpertRuns, diag`directCalls, diag`scatterCalls, scratch
    ensures scratch.Valid() && (raised <==> kernel && !sym.Complete())
    ensures !raised ==> out.added == Select(FusedItems(r, n, emap), Experts(n))
    ensures !raised ==>
              && diag.fatExpertRuns == old(diag.fatExpertRuns) + FatCount(b.counts, cap, n)
              && diag.directCalls == old(diag.directCalls) + (if kernel then FatCount(b.counts, cap, n) else 0)
              && diag.scatterCalls == old(diag.scatterCalls) + if kernel then FatCount(b.counts, cap, n) else 0
    ensures raised ==>
              && diag.scatterCalls == old(diag.scatterCalls) && old(diag.directCalls) <= diag.directCalls
              && diag.directCalls - old(diag.directCalls) <= diag.fatExpertRuns - old(diag.fatExpertRuns) <= 1
  {
    hide Select, PassCount, FusedItems, ScratchCache.Valid, FatCount;
    raised := ApplyBatchedFat(b.tok, b.w, b.counts, cap, out, layer, kernel, sym, diag, scratch, device, configured);
    if !raised { ThinPlusFat(b, r, n, emap, cap, old(out.added), out.added); }
  }

  method RunSortedTier(b: Buffers, ghost r: Routing, ghost n: nat, ghost emap: Option<seq<int>>, cap: nat,
                       diag: FatDiag, out: Output)
    requires r.Valid() && SortedBuffers(b, r, n, emap)
    requires out.added == Select(FusedItems(r, n, emap), Thin(b.counts, cap))
    modifies out`added, diag`fatExpertRuns
    ensures out.added == Select(FusedItems(r, n, emap), Experts(n))
    ensures diag.fatExpertRuns == old(diag.fatExpertRuns) + FatCount(b.counts, cap, n)
  {
    hide Select, PassCount, FusedItems;
    var runs := ApplySortedFat(b.tok, b.w, b.counts, cap, out);
    diag.fatExpertRuns := diag.fatExpertRuns + runs;
    ThinPlusFat(b, r, n, emap, cap, old(out.added), out.added);
  }

  method RunLegacyTier(b: Buffers, r: Routing, n: nat, emap: Option<seq<int>>, cap: nat, diag: FatDiag, out: Output)
    requires r.Valid() && SortedBuffers(b, r, n, emap)
    requires out.added == Select(FusedItems(r, n, emap), Thin(b.counts, cap))
    modifies out`added, diag`fatExpertRuns
    ensures out.added == Added(Fallback(Legacy), r, n, emap, cap)
    ensures diag.fatExpertRuns == old(diag.fatExpertRuns) + FatCount(b.counts, cap, n)
  {
    hide Select, FusedItems, LoopItems;
    var fat := Fat(b.counts, cap);
    assert Kept(Some(fat), n) == fat;
    ApplyLoop(r, n, emap, Some(fat), out);
    diag.fatExpertRuns := diag.fatExpertRuns + FatCount(b.counts, cap, n);
    SameMultiset(out.added, Added(Fallback(Legacy), r, n, emap, cap));
  }

  lemma {:induction false} SortedTiersAdd(tier: Tier, r: Routing, n: nat, emap: Option<seq<int>>, cap: nat)
    requires r.Valid()
    ensures tier != Legacy ==> Added(Fallback(tier), r, n, emap, cap) == Select(FusedItems(r, n, emap), Experts(n))
  {
  }

  /** The oversized experts, on whatever tier the switches and the checkpoint allow. The tier is
      recorded before it runs, so the totals balance even when it raises. */
  method RunFallback(b: Buffers, r: Routing, n: nat, emap: Option<seq<int>>, cap: nat, knobs: Knobs, sym: Symbols,
                     layer: MoeLayer, diag: FatDiag, scratch: ScratchCache, device: string, configured: int,
                     out: Output)
    returns (raised: bool)
    requires r.Valid() && SortedBuffers(b, r, n, emap) && |layer.gates| == n
    requires out.added == Select(FusedItems(r, n, emap), Thin(b.counts, cap)) && FatCount(b.counts, cap, n) > 0
    requires scratch.Valid() && diag.fallbackCalls.Keys == {Kernel, Batched, SortedTier, Legacy}
    requires diag.scatterCalls <= diag.directCalls <= diag.fatExpertRuns
    modifies out`added, diag`fallbackCalls, diag`fallbackReasons
    modifies diag`fatExpertRuns, diag`directCalls, diag`scatterCalls
    modifies scratch, layer`lastFallback, layer`lastReason
    ensures raised <==> TierOf(knobs, layer.sharedSuh) == Kernel && !sym.Complete()
    ensures var tier := TierOf(knobs, layer.sharedSuh);
            && layer.lastFallback == OnTier(tier) && layer.lastReason == ReasonOf(knobs, tier)
            && diag.fallbackCalls == old(Bumped(diag.fallbackCalls, tier))
            && diag.fallbackReasons == old(Bumped(diag.fallbackReasons, ReasonOf(knobs, tier)))
    ensures MapSum(diag.fallbackReasons) == old(MapSum(diag.fallbackReasons)) + 1
    ensures MapSum(diag.fallbackCalls) == old(MapSum(diag.fallbackCalls)) + 1
    ensures diag.scatterCalls <= diag.directCalls <= diag.fatExpertRuns && scratch.Valid()
    ensures !raised ==> out.added == Added(Fallback(TierOf(knobs, layer.sharedSuh)), r, n, emap, cap)
    ensures !raised ==>
              var ran := if TierOf(knobs, layer.sharedSuh) == Kernel then FatCount(b.counts, cap, n) else 0;
              && diag.fatExpertRuns == old(diag.fatExpertRuns) + FatCount(b.counts, cap, n)
              && diag.directCalls == old(diag.directCalls) + ran && diag.scatterCalls == old(diag.scatterCalls) + ran
  {
    hide Select, PassCount, FusedItems, LoopItems, MapSum, ScratchCache.Valid, SortedBuffers, FatCount, Added, Thin;
    SortedTiersAdd(TierOf(knobs, layer.sharedSuh), r, n, emap, cap);
    var batched := knobs.WantBatched() && layer.sharedSuh;
    var kernel := batched && knobs.fatKernel;
    raised := false;
    if batched {
      if kernel { diag.RecordTier(Kernel, KernelOk, layer); } else { diag.RecordTier(Batched, BatchedOk, layer); }
      raised := RunBatchedTier(b, r, n, emap, cap, kernel, sym, layer, diag, scratch, device, configured, out);
    } else if knobs.UseSorted() {
      diag.RecordTier(SortedTier, if knobs.WantBatched() then DegradedSharedSuh else SortedOk, layer);
      RunSortedTier(b, r, n, emap, cap, diag, out);
    } else {
      diag.RecordTier(Legacy, LegacyDefault, layer);
      RunLegacyTier(b, r, n, emap, cap, diag, out);
    }
  }

  /** The state after a call that took `path`. */
  ghost predicate Outcome(path: Path, r: Routing, n: nat, emap: Option<seq<int>>, cap: nat, knobs: Knobs,
                          before: Snapshot, out: Output, diag: FatDiag, layer: MoeLayer)
    requires r.Valid() && cap > 0
    reads out, diag, layer
  {
    && out.added == Added(path, r, n, emap, cap)
    && out.launches == (if path.Tiles? then TilesFor(MaxOf(FusedCounts(r, n, emap)), cap) else 1)
    && CountersFor(path, PathReason(knobs, path), FatCount(FusedCounts(r, n, emap), cap, n), before, diag)
    && layer.lastFallback == PathLabel(path)
    && layer.lastReason == if path.AllThin? then NoFatExperts else PathReason(knobs, path)
  }

  /** The routing turned out to have no oversized expert. */
  method ThinPath(b: Buffers, ghost r: Routing, ghost n: nat, ghost emap: Option<seq<int>>, cap: nat,
                  ghost knobs: Knobs, layer: MoeLayer, diag: FatDiag, launched: bool, out: Output)
    requires r.Valid() && SortedBuffers(b, r, n, emap) && MaxOf(b.counts) <= cap && cap > 0
    requires layer.lastFallback == NoFallback && layer.lastReason == NoFatExperts
    requires if launched then out.added == Select(FusedItems(r, n, emap), Thin(b.counts, cap)) && out.launches == 1
             else out.added == multiset{} && out.launches == 0
    modifies out, diag`thinCalls, diag`fallbackReasons
    requires diag.Pending()
    ensures diag.Valid()
    ensures Outcome(AllThin, r, n, emap, cap, knobs, old(Snap(diag).(prefill := diag.prefillLayerCalls - 1)),
                    out, diag, layer)
  {
    hide Select, FusedItems, MapSum, FatCount, PassCount, Counts, MaxOf;
    diag.thinCalls := diag.thinCalls + 1;
    diag.RecordReason(ThinOnly);
    if !launched { Launch(b, r, n, emap, cap, out); }
    assert Thin(b.counts, cap) == Experts(n);
  }

  /** Row tiles preempt every fallback tier. */
  method TilePath(b: Buffers, ghost r: Routing, ghost n: nat, ghost emap: Option<seq<int>>, cap: nat,
                  ghost knobs: Knobs, layer: MoeLayer, diag: FatDiag, maxRows: nat, out: Output)
    requires r.Valid() && SortedBuffers(b, r, n, emap) && maxRows == MaxOf(b.counts) && cap > 0
    requires out.added == multiset{} && out.launches == 0 && diag.Pending()
    modifies out, diag`rowTileCalls, diag`fallbackReasons, layer`lastFallback, layer`lastReason
    ensures diag.Valid()
    ensures Outcome(Tiles, r, n, emap, cap, knobs, old(Snap(diag).(prefill := diag.prefillLayerCalls - 1)),
                    out, diag, layer)
  {
    hide Select, FusedItems, MapSum, FatCount, MaxOf, TilesFor, Counts, Thin;
    diag.rowTileCalls := diag.rowTileCalls + 1;
    layer.lastFallback, layer.lastReason := RowTile, RowTilePreemptsFat;
    diag.RecordReason(RowTilePreemptsFat);
    LaunchTiles(b, r, n, emap, cap, maxRows, out);
  }

  /** The launch, unless it was made early, and the fallback. */
  method FallbackPath(b: Buffers, r: Routing, n: nat, emap: Option<seq<int>>, cap: nat, knobs: Knobs, sym: Symbols,
                      layer: MoeLayer, diag: FatDiag, scratch: ScratchCache, device: string, configured: int,
                      launched: bool, out: Output)
    returns (raised: bool)
    requires r.Valid() && SortedBuffers(b, r, n, emap) && |layer.gates| == n && cap > 0 && MaxOf(b.counts) > cap
    requires if launched then out.added == Select(FusedItems(r, n, emap), Thin(b.counts, cap)) && out.launches == 1
             else out.added == multiset{} && out.launches == 0
    requires scratch.Valid() && diag.Pending()
    modifies out, diag, scratch, layer`lastFallback, layer`lastReason
    ensures diag.Valid() && scratch.Valid()
    ensures raised <==> TierOf(knobs, layer.sharedSuh) == Kernel && !sym.Complete()
    ensures !raised ==>
              Outcome(Fallback(TierOf(knobs, layer.sharedSuh)), r, n, emap, cap, knobs,
                      old(Snap(diag).(prefill := diag.prefillLayerCalls - 1)), out, diag, layer)
  {
    hide Select, FusedItems, MapSum, FatCount, ScratchCache.Valid, Added, PassCount, Counts, TilesFor;
    hide MaxOf, TierOf, ReasonOf, FusedCounts, Thin;
    HottestIsFat(b.counts, cap);
    assert b.counts == FusedCounts(r, n, emap);
    hide SortedBuffers;
    if !launched { Launch(b, r, n, emap, cap, out); }
    raised := RunFallback(b, r, n, emap, cap, knobs, sym, layer, diag, scratch, device, configured, out);
  }

  lemma {:induction false} HottestIsFat(counts: seq<nat>, cap: nat)
    requires MaxOf(counts) > cap
    ensures FatCount(counts, cap, |counts|) > 0
  {
    hide MaxOf;
    var e :| 0 <= e < |counts| && counts[e] == MaxOf(counts);
    SomeFat(counts, cap, e);
  }

  /** A prefill call: more tokens than the temporaries hold rows. */
  method Prefill(b: Buffers, r: Routing, n: nat, emap: Option<seq<int>>, cap: nat, knobs: Knobs, sym: Symbols,
                 layer: MoeLayer, diag: FatDiag, scratch: ScratchCache, device: string, configured: int, out: Output)
    returns (raised: bool)
    requires r.Valid() && SortedBuffers(b, r, n, emap) && |layer.gates| == n && cap > 0 && r.tokens > cap
    requires b.counts == FusedCounts(r, n, emap)
    requires diag.Valid() && scratch.Valid() && out.added == multiset{} && out.launches == 0
    requires layer.lastFallback == NoFallback && layer.lastReason == NoFatExperts
    modifies out, diag, scratch, layer`lastFallback, layer`lastReason
    ensures diag.Valid() && scratch.Valid()
    ensures var path := PathOf(knobs, layer.sharedSuh, r.tokens, cap, MaxOf(b.counts));
            && (raised <==> path == Fallback(Kernel) && !sym.Complete())
            && (!raised ==> Outcome(path, r, n, emap, cap, knobs, old(Snap(diag)), out, diag, layer))
  {
    hide Select, PassCount, FusedItems, LoopItems, ScratchCache.Valid, MapSum, SortedBuffers, FatCount, FusedCounts;
    hide Outcome, MaxOf, TilesFor;
    diag.prefillLayerCalls := diag.prefillLayerCalls + 1;
    var launched := false;
    if knobs.WantBatched() && layer.sharedSuh && !knobs.rowTile {
      Launch(b, r, n, emap, cap, out);
      launched := true;
    }
    var maxRows := MaxOf(b.counts);
    if maxRows <= cap {
      ThinPath(b, r, n, emap, cap, knobs, layer, diag, launched, out);
      return false;
    }
    if knobs.rowTile {
      TilePath(b, r, n, emap, cap, knobs, layer, diag, maxRows, out);
      return false;
    }
    raised := FallbackPath(b, r, n, emap, cap, knobs, sym, layer, diag, scratch, device, configured, launched, out);
  }

  /** One fused layer call. Unless the kernel tier finds a symbol missing, the output holds what
      `Added` says, which is the reference loop's result exactly when the call is faithful; the
      kernel is launched exactly once, or once per tile; every oversized expert is run once by
      whichever tier is chosen. The counters stay balanced in any case. */
  method ApplyFused(r: Routing, emap: Option<seq<int>>, order: seq<nat>, knobs: Knobs, sym: Symbols, cap: nat,
                    layer: MoeLayer, diag: FatDiag, scratch: ScratchCache, device: string, configured: int)
    returns (out: Output, raised: bool)
    requires r.Valid() && cap > 0 && layer.gates != []
    requires IsArgsort(FusedItems(r, |layer.gates|, emap), order)
    requires diag.Valid() && scratch.Valid()
    modifies diag, scratch, layer`lastFallback, layer`lastReason
    ensures fresh(out) && diag.Valid() && scratch.Valid()
    ensures var n := |layer.gates|;
            var path := PathOf(knobs, layer.sharedSuh, r.tokens, cap, MaxOf(FusedCounts(r, n, emap)));
            && (raised <==> path == Fallback(Kernel) && !sym.Complete())
            && (!raised ==> Outcome(path, r, n, emap, cap, knobs, old(Snap(diag)), out, diag, layer))
            && (!raised ==> (out.added == Reference(r, n, emap) <==> Faithful(path, r, n, emap, cap)))
  {
    hide Select, PassCount, FusedItems, LoopItems, ScratchCache.Valid, MapSum, IsArgsort, FatCount, Faithful, Reference;
    hide Counts, MaxOf, TilesFor;
    var n := |layer.gates|;
    var b := SortRouting(r, n, emap, order);
    out := new Output();
    layer.lastFallback, layer.lastReason := NoFallback, NoFatExperts;
    FaithfulIffReference(PathOf(knobs, layer.sharedSuh, r.tokens, cap, MaxOf(b.counts)), r, n, emap, cap);
    if r.tokens <= cap {
      Launch(b, r, n, emap, cap, out);
      raised := false;
    } else {
      raised := Prefill(b, r, n, emap, cap, knobs, sym, layer, diag, scratch, device, configured, out);
    }
  }
}
