/** The passes that add expert outputs: one kernel launch, the slice-by-slice fallback, the
    row-tiled launches and the per-expert reference loop.

    Every specification function here counts one contribution `c`: it says how often a pass
    adds exactly that (expert, token, weight). */
module MoePasses {
  import opened MoeRouting
  import opened Wrappers
  import opened Arith

  /** How often the pair (token, weight) occurs in rows `lo..hi` of the sorted buffers. */
  function PairCount(token: nat, weight: real, tok: seq<nat>, w: seq<real>, lo: nat, hi: nat): nat
    requires lo <= hi <= |tok| == |w|
    decreases hi
  {
    if lo == hi then 0
    else PairCount(token, weight, tok, w, lo, hi - 1) +
         (if tok[hi - 1] == token && w[hi - 1] == weight then 1 else 0)
  }

  /** A pass over the segments of the first `m` experts, restricted to those in `keep`. */
  function PassCount(c: Contribution, counts: seq<nat>, tok: seq<nat>, w: seq<real>, keep: set<nat>, m: nat): nat
    requires m <= |counts| && Offset(counts, m) <= |tok| == |w|
  {
    if c.expert < m && c.expert in keep then
      SegmentInBounds(counts, c.expert, m);
      PairCount(c.token, c.weight, tok, w, Offset(counts, c.expert), Offset(counts, c.expert) + counts[c.expert])
    else 0
  }

  lemma {:induction false} SegmentInBounds(counts: seq<nat>, e: nat, m: nat)
    requires e < m <= |counts|
    ensures Offset(counts, e) + counts[e] <= Offset(counts, m)
  {
    OffsetMonotone(counts, e + 1, m);
  }

  /** Experts whose rows fit the kernel's temporaries, and the others. */
  function Thin(counts: seq<nat>, cap: nat): (s: set<nat>)
    ensures forall e: nat :: e in s <==> e < |counts| && counts[e] <= cap
  {
    set e: nat | e in Experts(|counts|) && counts[e] <= cap
  }

  function Fat(counts: seq<nat>, cap: nat): (s: set<nat>)
    ensures forall e: nat :: e in s <==> e < |counts| && counts[e] > cap
  {
    set e: nat | e in Experts(|counts|) && counts[e] > cap
  }

  function TokensOf(s: seq<Contribution>): (t: seq<nat>)
    ensures |t| == |s| && forall i | 0 <= i < |s| :: t[i] == s[i].token
  {
    seq(|s|, i requires 0 <= i < |s| => s[i].token)
  }

  function WeightsOf(s: seq<Contribution>): (w: seq<real>)
    ensures |w| == |s| && forall i | 0 <= i < |s| :: w[i] == s[i].weight
  {
    seq(|s|, i requires 0 <= i < |s| => s[i].weight)
  }

  lemma {:induction false} SegmentCount(s: seq<Contribution>, c: Contribution, lo: nat, hi: nat, k: nat)
    requires lo <= hi <= |s| && k <= |s|
    requires forall i | 0 <= i < |s| :: lo <= i < hi <==> s[i].expert == c.expert
    ensures multiset(s[..k])[c] == if k <= lo then 0
                                   else PairCount(c.token, c.weight, TokensOf(s), WeightsOf(s), lo, Min(k, hi))
    decreases k
  {
    if k == 0 {
      assert s[..0] == [];
    } else {
      SegmentCount(s, c, lo, hi, k - 1);
      assert s[..k] == s[..k - 1] + [s[k - 1]];
    }
  }

  /** A pass over a sorted buffer adds exactly the kept experts' items. */
  lemma {:induction false} PassIsSelect(s: seq<Contribution>, n: nat, keep: set<nat>, c: Contribution)
    requires Sorted(ExpertsOf(s)) && keep <= Experts(n)
    ensures Offset(Counts(s, n), n) <= |s|
    ensures PassCount(c, Counts(s, n), TokensOf(s), WeightsOf(s), keep, n) == Select(s, keep)[c]
  {
    SelectCount(s, keep, c);
    SortedSegments(s, n, n);
    if c.expert in keep { ExpertSegment(s, n, c); }
  }

  lemma {:induction false} ExpertSegment(s: seq<Contribution>, n: nat, c: Contribution)
    requires Sorted(ExpertsOf(s)) && c.expert < n
    ensures var lo := Offset(Counts(s, n), c.expert);
            && lo + Counts(s, n)[c.expert] <= |s|
            && multiset(s)[c] ==
               PairCount(c.token, c.weight, TokensOf(s), WeightsOf(s), lo, lo + Counts(s, n)[c.expert])
  {
    SortedSegments(s, n, c.expert);
    SortedSegments(s, n, c.expert + 1);
    SegmentCount(s, c, Offset(Counts(s, n), c.expert), Offset(Counts(s, n), c.expert + 1), |s|);
    assert s[..|s|] == s;
  }

  /** The segment of one more expert. */
  lemma {:induction false} PassStep(
    c: Contribution, counts: seq<nat>, tok: seq<nat>, w: seq<real>, keep: set<nat>, e: nat)
    requires e < |counts| && Offset(counts, |counts|) <= |tok| == |w|
    ensures Offset(counts, e + 1) == Offset(counts, e) + counts[e] <= |tok|
    ensures PassCount(c, counts, tok, w, keep, e + 1) == PassCount(c, counts, tok, w, keep, e) +
              if c.expert == e && e in keep then
                PairCount(c.token, c.weight, tok, w, Offset(counts, e), Offset(counts, e) + counts[e])
              else 0
  {
    OffsetMonotone(counts, e + 1, |counts|);
    hide PairCount;
  }

  lemma {:induction false} NothingPassed(c: Contribution, counts: seq<nat>, tok: seq<nat>, w: seq<real>, keep: set<nat>)
    requires Offset(counts, 0) <= |tok| == |w|
    ensures PassCount(c, counts, tok, w, keep, 0) == 0
  {
  }

  /** The output tensor being accumulated, and how often the kernel has been launched. */
  class Output {
    var added: multiset<Contribution>
    var launches: nat

    constructor ()
      ensures added == multiset{} && launches == 0
    {
      added, launches := multiset{}, 0;
    }

    /** Run rows `lo..hi` through expert `e` and add the results to their tokens. */
    method AddRows(e: nat, tok: seq<nat>, w: seq<real>, lo: nat, hi: nat)
      requires lo <= hi <= |tok| == |w|
      modifies this`added
      ensures forall c: Contribution ::
        added[c] == old(added)[c] + if c.expert == e then PairCount(c.token, c.weight, tok, w, lo, hi) else 0
    {
      for i := lo to hi
        invariant forall c: Contribution ::
          added[c] == old(added)[c] + if c.expert == e then PairCount(c.token, c.weight, tok, w, lo, i) else 0
      {
        added := added + multiset{Contribution(e, tok[i], w[i])};
      }
    }

    /** One `exl3_moe` call. `ec` has one more entry than there are experts, for the sentinel,
        and the kernel skips every expert with more rows than its temporaries hold. */
    method ExlMoe(ec: seq<nat>, tok: seq<nat>, w: seq<real>, cap: nat)
      requires |ec| >= 1 && Offset(ec[..|ec| - 1], |ec| - 1) <= |tok| == |w|
      modifies this
      ensures var n := |ec| - 1;
              forall c: Contribution ::
                added[c] == old(added)[c] + PassCount(c, ec[..n], tok, w, Thin(ec[..n], cap), n)
      ensures launches == old(launches) + 1
    {
      hide PairCount, PassCount;
      var counts := ec[..|ec| - 1];
      forall c: Contribution ensures PassCount(c, counts, tok, w, Thin(counts, cap), 0) == 0 {
        NothingPassed(c, counts, tok, w, Thin(counts, cap));
      }
      var offset := 0;
      for e := 0 to |counts|
        invariant offset == Offset(counts, e) <= |tok|
        invariant launches == old(launches)
        invariant forall c: Contribution ::
          added[c] == old(added)[c] + PassCount(c, counts, tok, w, Thin(counts, cap), e)
      {
        var start := offset;
        offset := offset + counts[e];
        OffsetMonotone(counts, e + 1, |counts|);
        forall c: Contribution { PassStep(c, counts, tok, w, Thin(counts, cap), e); }
        if counts[e] <= cap {
          AddRows(e, tok, w, start, offset);
        }
      }
      launches := launches + 1;
    }
  }

  /** `apply_exl3_sorted_fat`: the oversized experts, from slices of the sorted buffers. */
  method ApplySortedFat(tok: seq<nat>, w: seq<real>, counts: seq<nat>, cap: nat, out: Output) returns (runs: nat)
    requires Offset(counts, |counts|) <= |tok| == |w|
    modifies out`added
    ensures forall c: Contribution ::
      out.added[c] == old(out.added)[c] + PassCount(c, counts, tok, w, Fat(counts, cap), |counts|)
    ensures runs == FatCount(counts, cap, |counts|)
  {
    hide PairCount, PassCount;
    var offset := 0;
    runs := 0;
    forall c: Contribution ensures PassCount(c, counts, tok, w, Fat(counts, cap), 0) == 0 {
      NothingPassed(c, counts, tok, w, Fat(counts, cap));
    }
    for e := 0 to |counts|
      invariant offset == Offset(counts, e) <= |tok| && runs == FatCount(counts, cap, e)
      invariant forall c: Contribution ::
        out.added[c] == old(out.added)[c] + PassCount(c, counts, tok, w, Fat(counts, cap), e)
    {
      var start := offset;
      offset := offset + counts[e];
      OffsetMonotone(counts, e + 1, |counts|);
      forall c: Contribution { PassStep(c, counts, tok, w, Fat(counts, cap), e); }
      if counts[e] <= cap { continue; }
      runs := runs + 1;
      out.AddRows(e, tok, w, start, offset);
    }
  }

  function FatCount(counts: seq<nat>, cap: nat, m: nat): (n: nat)
    requires m <= |counts|
  {
    if m == 0 then 0 else FatCount(counts, cap, m - 1) + if counts[m - 1] > cap then 1 else 0
  }

  // Row tiles.

  /** How many of an expert's rows fall in the tile that starts at `row0`. */
  function TileCount(c: nat, row0: nat, tile: nat): (n: nat)
    ensures n <= tile
    ensures Min(c, row0) + n == Min(c, row0 + tile)
  {
    if c <= row0 then 0 else Min(c - row0, tile)
  }

  function TileCounts(counts: seq<nat>, row0: nat, tile: nat): (tc: seq<nat>)
    ensures |tc| == |counts|
    ensures forall e | 0 <= e < |tc| :: tc[e] == TileCount(counts[e], row0, tile)
  {
    seq(|counts|, e requires 0 <= e < |counts| => TileCount(counts[e], row0, tile))
  }

  /** The first expert from `e` on whose running total exceeds `idx`. */
  function SearchRight(tc: seq<nat>, idx: nat, e: nat): (r: nat)
    requires e < |tc| && Offset(tc, e) <= idx < Offset(tc, |tc|)
    ensures r < |tc| && Offset(tc, r) <= idx < Offset(tc, r) + tc[r]
    decreases |tc| - e
  {
    if idx < Offset(tc, e + 1) then e else SearchRight(tc, idx, e + 1)
  }

  lemma {:induction false} SearchRightUnique(tc: seq<nat>, idx: nat, e: nat)
    requires e < |tc| && Offset(tc, e) <= idx < Offset(tc, e) + tc[e]
    ensures Offset(tc, e) + tc[e] <= Offset(tc, |tc|)
    ensures SearchRight(tc, idx, 0) == e
  {
    OffsetMonotone(tc, e + 1, |tc|);
    var r := SearchRight(tc, idx, 0);
    if r < e {
      OffsetMonotone(tc, r + 1, e);
    } else if e < r {
      OffsetMonotone(tc, e + 1, r);
    }
  }

  /** The row of the sorted buffer that position `idx` of a tile's gathered buffer holds. */
  function TileSource(counts: seq<nat>, row0: nat, tile: nat, idx: nat): (src: nat)
    requires idx < Offset(TileCounts(counts, row0, tile), |counts|)
    ensures src < Offset(counts, |counts|)
  {
    var tc := TileCounts(counts, row0, tile);
    assert |counts| > 0;
    var e := SearchRight(tc, idx, 0);
    SegmentInBounds(counts, e, |counts|);
    Offset(counts, e) + row0 + (idx - Offset(tc, e))
  }

  function TileSources(counts: seq<nat>, row0: nat, tile: nat): (src: seq<nat>)
    ensures |src| == Offset(TileCounts(counts, row0, tile), |counts|)
    ensures forall i | 0 <= i < |src| :: src[i] < Offset(counts, |counts|)
  {
    seq(Offset(TileCounts(counts, row0, tile), |counts|),
      i requires 0 <= i < Offset(TileCounts(counts, row0, tile), |counts|) => TileSource(counts, row0, tile, i))
  }

  function IndexSelect<T>(s: seq<T>, idx: seq<nat>): (r: seq<T>)
    requires forall i | 0 <= i < |idx| :: idx[i] < |s|
    ensures |r| == |idx| && forall i | 0 <= i < |idx| :: r[i] == s[idx[i]]
  {
    seq(|idx|, i requires 0 <= i < |idx| => s[idx[i]])
  }

  /** What the launch of one tile adds. */
  function TileCountOf(c: Contribution, counts: seq<nat>, tok: seq<nat>, w: seq<real>, row0: nat, tile: nat): nat
    requires Offset(counts, |counts|) <= |tok| == |w|
  {
    var tc, src := TileCounts(counts, row0, tile), TileSources(counts, row0, tile);
    PassCount(c, tc, IndexSelect(tok, src), IndexSelect(w, src), Thin(tc, tile), |tc|)
  }

  /** What the first `t` tiles add. */
  function TilesCount(c: Contribution, counts: seq<nat>, tok: seq<nat>, w: seq<real>, tile: nat, t: nat): nat
    requires Offset(counts, |counts|) <= |tok| == |w|
  {
    if t == 0 then 0
    else TilesCount(c, counts, tok, w, tile, t - 1) + TileCountOf(c, counts, tok, w, (t - 1) * tile, tile)
  }

  lemma {:induction false} PairCountConcat(
    token: nat, weight: real, tok: seq<nat>, w: seq<real>, lo: nat, mid: nat, hi: nat)
    requires lo <= mid <= hi <= |tok| == |w|
    ensures PairCount(token, weight, tok, w, lo, hi)
            == PairCount(token, weight, tok, w, lo, mid) + PairCount(token, weight, tok, w, mid, hi)
    decreases hi
  {
    if mid == hi {
    } else {
      PairCountConcat(token, weight, tok, w, lo, mid, hi - 1);
    }
  }

  /** Rows that were gathered from `d` further on count the same. */
  lemma {:induction false} PairCountGathered(
    token: nat, weight: real, tok: seq<nat>, w: seq<real>, gtok: seq<nat>, gw: seq<real>, d: int, lo: nat, hi: nat)
    requires lo <= hi <= |gtok| == |gw| && 0 <= lo + d && hi + d <= |tok| == |w|
    requires forall j | lo <= j < hi :: gtok[j] == tok[j + d] && gw[j] == w[j + d]
    ensures PairCount(token, weight, gtok, gw, lo, hi) == PairCount(token, weight, tok, w, lo + d, hi + d)
    decreases hi
  {
    if lo == hi {
    } else {
      PairCountGathered(token, weight, tok, w, gtok, gw, d, lo, hi - 1);
    }
  }

  /** Within a tile, expert `e`'s gathered rows are its next rows of the sorted buffer. */
  lemma {:induction false} TileSegment(counts: seq<nat>, row0: nat, tile: nat, e: nat, idx: nat)
    requires e < |counts|
    requires var tc := TileCounts(counts, row0, tile); Offset(tc, e) <= idx < Offset(tc, e) + tc[e]
    ensures var tc := TileCounts(counts, row0, tile);
            && idx < Offset(tc, |tc|)
            && TileSources(counts, row0, tile)[idx]
               == Offset(counts, e) + Min(counts[e], row0) + (idx - Offset(tc, e))
  {
    SearchRightUnique(TileCounts(counts, row0, tile), idx, e);
  }

  lemma {:induction false} TileSegmentGathered<T>(
    counts: seq<nat>, col: seq<T>, row0: nat, tile: nat, e: nat, g: seq<T>)
    requires e < |counts| && Offset(counts, |counts|) <= |col|
    requires g == IndexSelect(col, TileSources(counts, row0, tile))
    ensures var tc := TileCounts(counts, row0, tile);
            var lo, glo := Offset(counts, e) + Min(counts[e], row0), Offset(tc, e);
            && lo + tc[e] <= |col| && glo + tc[e] <= |g|
            && forall j | glo <= j < glo + tc[e] :: g[j] == col[j + (lo - glo)]
  {
    hide TileSources, TileSource, SearchRight, TileCounts;
    var tc := TileCounts(counts, row0, tile);
    SegmentInBounds(counts, e, |counts|);
    SegmentInBounds(tc, e, |tc|);
    forall j | Offset(tc, e) <= j < Offset(tc, e) + tc[e]
      ensures g[j] == col[j + (Offset(counts, e) + Min(counts[e], row0) - Offset(tc, e))]
    {
      TileSegment(counts, row0, tile, e, j);
    }
  }

  /** The tile at `row0` adds, for each expert, rows `row0..row0 + tile` of that expert. */
  lemma {:induction false} TileAddsNextRows(
    c: Contribution, counts: seq<nat>, tok: seq<nat>, w: seq<real>, row0: nat, tile: nat)
    requires c.expert < |counts| && Offset(counts, |counts|) <= |tok| == |w|
    ensures Offset(counts, c.expert) + counts[c.expert] <= |tok|
    ensures var lo := Offset(counts, c.expert);
            TileCountOf(c, counts, tok, w, row0, tile) ==
            PairCount(c.token, c.weight, tok, w,
              lo + Min(counts[c.expert], row0), lo + Min(counts[c.expert], row0 + tile))
  {
    hide TileSources, TileSource, SearchRight, TileCounts, PairCount;
    var e, tc, src := c.expert, TileCounts(counts, row0, tile), TileSources(counts, row0, tile);
    var gtok, gw := IndexSelect(tok, src), IndexSelect(w, src);
    SegmentInBounds(counts, e, |counts|);
    SegmentInBounds(tc, e, |tc|);
    TileSegmentGathered(counts, tok, row0, tile, e, gtok);
    TileSegmentGathered(counts, w, row0, tile, e, gw);
    var lo, glo := Offset(counts, e) + Min(counts[e], row0), Offset(tc, e);
    PairCountGathered(c.token, c.weight, tok, w, gtok, gw, lo - glo, glo, glo + tc[e]);
  }

  lemma {:induction false} TilesAddFirstRows(
    c: Contribution, counts: seq<nat>, tok: seq<nat>, w: seq<real>, tile: nat, t: nat)
    requires c.expert < |counts| && Offset(counts, |counts|) <= |tok| == |w|
    ensures Offset(counts, c.expert) + counts[c.expert] <= |tok|
    ensures var lo := Offset(counts, c.expert);
            TilesCount(c, counts, tok, w, tile, t) ==
            PairCount(c.token, c.weight, tok, w, lo, lo + Min(counts[c.expert], t * tile))
    decreases t
  {
    hide TileCountOf, PairCount;
    SegmentInBounds(counts, c.expert, |counts|);
    if t == 0 {
      NoPairs(c.token, c.weight, tok, w, Offset(counts, c.expert));
    } else {
      TilesAddFirstRows(c, counts, tok, w, tile, t - 1);
      var row0: nat := (t - 1) * tile;
      NextTile(c, counts, tok, w, row0, tile);
      assert row0 + tile == t * tile;
    }
  }

  lemma {:induction false} NoPairs(token: nat, weight: real, tok: seq<nat>, w: seq<real>, lo: nat)
    requires lo <= |tok| == |w|
    ensures PairCount(token, weight, tok, w, lo, lo) == 0
  {
  }

  lemma {:induction false} NextTile(
    c: Contribution, counts: seq<nat>, tok: seq<nat>, w: seq<real>, row0: nat, tile: nat)
    requires c.expert < |counts| && Offset(counts, |counts|) <= |tok| == |w|
    ensures Offset(counts, c.expert) + counts[c.expert] <= |tok|
    ensures var lo, n := Offset(counts, c.expert), counts[c.expert];
            PairCount(c.token, c.weight, tok, w, lo, lo + Min(n, row0)) + TileCountOf(c, counts, tok, w, row0, tile)
            == PairCount(c.token, c.weight, tok, w, lo, lo + Min(n, row0 + tile))
  {
    hide PairCount, TileCountOf;
    SegmentInBounds(counts, c.expert, |counts|);
    TileAddsNextRows(c, counts, tok, w, row0, tile);
    var lo, n := Offset(counts, c.expert), counts[c.expert];
    PairCountConcat(c.token, c.weight, tok, w, lo, lo + Min(n, row0), lo + Min(n, row0 + tile));
  }

  lemma {:induction false} NoSuchExpertInTiles(
    c: Contribution, counts: seq<nat>, tok: seq<nat>, w: seq<real>, tile: nat, t: nat)
    requires c.expert >= |counts| && Offset(counts, |counts|) <= |tok| == |w|
    ensures TilesCount(c, counts, tok, w, tile, t) == 0
    decreases t
  {
    hide PairCount, TileSources, TileSource, SearchRight, TileCounts;
    if t == 0 {
    } else {
      NoSuchExpertInTiles(c, counts, tok, w, tile, t - 1);
    }
  }

  function TilesFor(maxRows: nat, tile: nat): nat
    requires tile > 0
  {
    (maxRows + tile - 1) / tile
  }

  lemma {:induction false} EnoughTiles(maxRows: nat, tile: nat)
    requires tile > 0
    ensures TilesFor(maxRows, tile) * tile >= maxRows
  {
    Quotient(maxRows + tile - 1, tile);
  }

  /** All tiles together add what one pass with unlimited temporaries would. */
  lemma {:induction false} TilesAreOnePass(
    c: Contribution, counts: seq<nat>, tok: seq<nat>, w: seq<real>, tile: nat, maxRows: nat)
    requires tile > 0 && Offset(counts, |counts|) <= |tok| == |w|
    requires forall e | 0 <= e < |counts| :: counts[e] <= maxRows
    ensures TilesCount(c, counts, tok, w, tile, TilesFor(maxRows, tile))
            == PassCount(c, counts, tok, w, Experts(|counts|), |counts|)
  {
    hide PairCount, TilesCount, TilesFor;
    EnoughTiles(maxRows, tile);
    if c.expert < |counts| {
      TilesAddFirstRows(c, counts, tok, w, tile, TilesFor(maxRows, tile));
    } else {
      NoSuchExpertInTiles(c, counts, tok, w, tile, TilesFor(maxRows, tile));
    }
  }

  /** The same, read on row numbers. The gathered sources of all tiles, tagged with the expert
      whose tile count they fall under, hit every row of expert `e`'s segment once under the
      tag `e` and never under another tag; no tile count exceeds the tile. */
  lemma {:induction false} TileSourcesPartitionRows(counts: seq<nat>, tile: nat, maxRows: nat, e: nat, row: nat)
    requires tile > 0 && forall i | 0 <= i < |counts| :: counts[i] <= maxRows
    ensures forall row0: nat, i: nat | i < |counts| :: TileCounts(counts, row0, tile)[i] <= tile
    ensures var total, c := Offset(counts, |counts|), Contribution(e, row, 0.0);
            TilesCount(c, counts, Identity(total), seq(total, _ => 0.0), tile, TilesFor(maxRows, tile))
            == if e < |counts| && Offset(counts, e) <= row < Offset(counts, e) + counts[e] then 1 else 0
  {
    hide TilesCount, TilesFor, PairCount, TileCount;
    var total := Offset(counts, |counts|);
    TilesAreOnePass(Contribution(e, row, 0.0), counts, Identity(total), seq(total, _ => 0.0), tile, maxRows);
    if e < |counts| {
      SegmentInBounds(counts, e, |counts|);
      RowOnce(row, total, Offset(counts, e), Offset(counts, e) + counts[e]);
    }
  }

  lemma {:induction false} RowOnce(row: nat, total: nat, lo: nat, hi: nat)
    requires lo <= hi <= total
    ensures PairCount(row, 0.0, Identity(total), seq(total, _ => 0.0), lo, hi) == if lo <= row < hi then 1 else 0
    decreases hi
  {
    if lo == hi {
    } else {
      RowOnce(row, total, lo, hi - 1);
    }
  }

  /** The hottest expert has rows in every tile, so the program's skip of empty tiles never fires. */
  lemma {:induction false} NoTileIsEmpty(counts: seq<nat>, tile: nat, maxRows: nat, t: nat)
    requires tile > 0 && (maxRows in counts || maxRows == 0) && t < TilesFor(maxRows, tile)
    ensures var tc := TileCounts(counts, t * tile, tile); Offset(tc, |tc|) > 0
  {
    TileStartsInside(maxRows, tile, t);
    hide TilesFor;
    var e :| 0 <= e < |counts| && counts[e] == maxRows;
    var tc := TileCounts(counts, t * tile, tile);
    SegmentInBounds(tc, e, |tc|);
  }

  lemma {:induction false} TileStartsInside(maxRows: nat, tile: nat, t: nat)
    requires tile > 0 && t < TilesFor(maxRows, tile)
    ensures t * tile < maxRows
  {
    Quotient(maxRows + tile - 1, tile);
    MulMonotone(t + 1, TilesFor(maxRows, tile), tile);
    assert (t + 1) * tile == t * tile + tile;
  }

  method ApplyRowTiles(counts: seq<nat>, tok: seq<nat>, w: seq<real>, tile: nat, maxRows: nat, out: Output)
    requires tile > 0 && Offset(counts, |counts|) <= |tok| == |w|
    requires (forall e | 0 <= e < |counts| :: counts[e] <= maxRows) && (maxRows in counts || maxRows == 0)
    modifies out
    ensures forall c: Contribution ::
      out.added[c] == old(out.added)[c] + PassCount(c, counts, tok, w, Experts(|counts|), |counts|)
    ensures out.launches == old(out.launches) + TilesFor(maxRows, tile)
  {
    hide TileCountOf, PassCount, TilesFor, TileCounts;
    var tiles := TilesFor(maxRows, tile);
    for t := 0 to tiles
      invariant forall c: Contribution ::
        out.added[c] == old(out.added)[c] + TilesCount(c, counts, tok, w, tile, t)
      invariant out.launches == old(out.launches) + t
    {
      NoTileIsEmpty(counts, tile, maxRows, t);
      LaunchTile(counts, tok, w, t * tile, tile, out);
    }
    forall c: Contribution { TilesAreOnePass(c, counts, tok, w, tile, maxRows); }
  }

  method LaunchTile(counts: seq<nat>, tok: seq<nat>, w: seq<real>, row0: nat, tile: nat, out: Output)
    requires Offset(counts, |counts|) <= |tok| == |w|
    modifies out
    ensures forall c: Contribution ::
      out.added[c] == old(out.added)[c] + TileCountOf(c, counts, tok, w, row0, tile)
    ensures var tc := TileCounts(counts, row0, tile);
            out.launches == old(out.launches) + if Offset(tc, |tc|) == 0 then 0 else 1
  {
    var tc, src := TileCounts(counts, row0, tile), TileSources(counts, row0, tile);
    if Offset(tc, |tc|) == 0 {
      forall c: Contribution ensures TileCountOf(c, counts, tok, w, row0, tile) == 0 {
        if c.expert < |tc| { SegmentInBounds(tc, c.expert, |tc|); }
      }
      return;
    }
    assert (tc + [0])[..|tc|] == tc;
    out.ExlMoe(tc + [0], IndexSelect(tok, src), IndexSelect(w, src), tile);
  }

  // The per-expert reference loop.

  /** Whether the loop runs pair `i` at all, and if so whether its id is among `raws`. */
  predicate LoopTakes(r: Routing, n: nat, emap: Option<seq<int>>, only: Option<set<nat>>, raws: set<int>, i: nat)
    requires r.Valid() && i < |r.ids|
  {
    var e := LoopExpert(r.ids[i], n, emap);
    r.ids[i] in raws && e < n && (only.None? || e in only.value)
  }

  ghost function LoopCount(
    c: Contribution, r: Routing, n: nat, emap: Option<seq<int>>, only: Option<set<nat>>, raws: set<int>, m: nat): nat
    requires r.Valid() && m <= |r.ids|
  {
    if m == 0 then 0
    else LoopCount(c, r, n, emap, only, raws, m - 1) +
         if LoopTakes(r, n, emap, only, raws, m - 1) && LoopItem(r, n, emap, m - 1) == c then 1 else 0
  }

  /** The pairs routed to `raw`, run through expert `e`. */
  ghost function IdCount(c: Contribution, r: Routing, raw: int, e: nat, m: nat): nat
    requires r.Valid() && m <= |r.ids|
  {
    if m == 0 then 0
    else IdCount(c, r, raw, e, m - 1) +
         if r.ids[m - 1] == raw && Contribution(e, r.TokenOf(m - 1), r.weights[m - 1]) == c then 1 else 0
  }

  lemma {:induction false} LoopCountStep(
    c: Contribution, r: Routing, n: nat, emap: Option<seq<int>>, only: Option<set<nat>>, raws: set<int>, raw: int,
    m: nat)
    requires r.Valid() && m <= |r.ids| && raw !in raws
    ensures var e := LoopExpert(raw, n, emap);
            LoopCount(c, r, n, emap, only, raws + {raw}, m) == LoopCount(c, r, n, emap, only, raws, m) +
              if e < n && (only.None? || e in only.value) then IdCount(c, r, raw, e, m) else 0
    decreases m
  {
    if m == 0 {
    } else {
      LoopCountStep(c, r, n, emap, only, raws, raw, m - 1);
    }
  }

  lemma {:induction false} LoopCountNone(
    c: Contribution, r: Routing, n: nat, emap: Option<seq<int>>, only: Option<set<nat>>, m: nat)
    requires r.Valid() && m <= |r.ids|
    ensures LoopCount(c, r, n, emap, only, {}, m) == 0
    decreases m
  {
    if m == 0 {
    } else {
      LoopCountNone(c, r, n, emap, only, m - 1);
    }
  }

  function Kept(only: Option<set<nat>>, n: nat): (k: set<nat>)
    ensures forall e: nat :: e in k <==> e < n && (only.None? || e in only.value)
  {
    if only.None? then Experts(n) else only.value * Experts(n)
  }

  lemma {:induction false} LoopCountAll(
    c: Contribution, r: Routing, n: nat, emap: Option<seq<int>>, only: Option<set<nat>>, raws: set<int>, m: nat)
    requires r.Valid() && m <= |r.ids| && forall i | 0 <= i < |r.ids| :: r.ids[i] in raws
    ensures LoopCount(c, r, n, emap, only, raws, m) ==
            if c.expert in Kept(only, n) then multiset(LoopItems(r, n, emap)[..m])[c] else 0
    decreases m
  {
    var s := LoopItems(r, n, emap);
    if m == 0 {
      assert s[..0] == [];
    } else {
      LoopCountAll(c, r, n, emap, only, raws, m - 1);
      OneMore(s, m, c);
      hide LoopExpert;
      assert s[m - 1] == LoopItem(r, n, emap, m - 1);
    }
  }

  lemma {:induction false} OneMore(s: seq<Contribution>, m: nat, c: Contribution)
    requires 0 < m <= |s|
    ensures multiset(s[..m])[c] == multiset(s[..m - 1])[c] + if s[m - 1] == c then 1 else 0
  {
    assert s[..m] == s[..m - 1] + [s[m - 1]];
  }

  /** The distinct ids, each once. */
  function Unique(ids: seq<int>): (u: seq<int>)
    ensures forall x: int :: x in u <==> x in ids
    ensures forall i, j | 0 <= i < j < |u| :: u[i] != u[j]
  {
    if ids == [] then []
    else
      var u, x := Unique(ids[..|ids| - 1]), ids[|ids| - 1];
      assert ids == ids[..|ids| - 1] + [x];
      if x in u then u else u + [x]
  }

  /** `apply_exl3_python_loop`: one round per distinct id, in an order that does not matter. */
  method ApplyLoop(r: Routing, n: nat, emap: Option<seq<int>>, only: Option<set<nat>>, out: Output)
    requires r.Valid()
    modifies out`added
    ensures forall c: Contribution ::
      out.added[c] == old(out.added)[c] + Select(LoopItems(r, n, emap), Kept(only, n))[c]
  {
    hide LoopCount, IdCount, Select;
    var unique := Unique(r.ids);
    ghost var done: set<int> := {};
    forall c: Contribution { LoopCountNone(c, r, n, emap, only, |r.ids|); }
    for j := 0 to |unique|
      invariant forall x: int :: x in done <==> x in unique[..j]
      invariant forall c: Contribution ::
        out.added[c] == old(out.added)[c] + LoopCount(c, r, n, emap, only, done, |r.ids|)
    {
      var raw := unique[j];
      forall c: Contribution { LoopCountStep(c, r, n, emap, only, done, raw, |r.ids|); }
      done := done + {raw};
      RunId(r, raw, n, emap, only, out);
    }
    assert unique[..|unique|] == unique;
    forall i | 0 <= i < |r.ids| ensures r.ids[i] in done {
      assert r.ids[i] in r.ids;
    }
    forall c: Contribution
      ensures LoopCount(c, r, n, emap, only, done, |r.ids|) == Select(LoopItems(r, n, emap), Kept(only, n))[c]
    {
      LoopCountIsSelect(c, r, n, emap, only, done);
    }
  }

  lemma {:induction false} LoopCountIsSelect(
    c: Contribution, r: Routing, n: nat, emap: Option<seq<int>>, only: Option<set<nat>>, raws: set<int>)
    requires r.Valid() && forall i | 0 <= i < |r.ids| :: r.ids[i] in raws
    ensures LoopCount(c, r, n, emap, only, raws, |r.ids|) == Select(LoopItems(r, n, emap), Kept(only, n))[c]
  {
    LoopCountAll(c, r, n, emap, only, raws, |r.ids|);
    SelectCount(LoopItems(r, n, emap), Kept(only, n), c);
    assert LoopItems(r, n, emap)[..|r.ids|] == LoopItems(r, n, emap);
  }

  /** One round of the loop: the ids that are negative, unmapped, out of range or not asked for
      are passed over. */
  method RunId(r: Routing, raw: int, n: nat, emap: Option<seq<int>>, only: Option<set<nat>>, out: Output)
    requires r.Valid()
    modifies out`added
    ensures var e := LoopExpert(raw, n, emap);
            forall c: Contribution :: out.added[c] == old(out.added)[c] +
              (if e < n && (only.None? || e in only.value) then IdCount(c, r, raw, e, |r.ids|) else 0)
  {
    if raw < 0 { return; }
    var e := raw;
    if emap.Some? {
      var mapped := if |emap.value| > e then emap.value[e] else e;
      if mapped < 0 { return; }
      e := mapped;
    }
    if e >= n { return; }
    if only.Some? && e !in only.value { return; }
    AddRowsWithId(r, raw, e, out);
  }

  /** The pairs whose id is `raw`, found by comparing every entry. */
  method AddRowsWithId(r: Routing, raw: int, e: nat, out: Output)
    requires r.Valid()
    modifies out`added
    ensures forall c: Contribution :: out.added[c] == old(out.added)[c] + IdCount(c, r, raw, e, |r.ids|)
  {
    for i := 0 to |r.ids|
      invariant forall c: Contribution :: out.added[c] == old(out.added)[c] + IdCount(c, r, raw, e, i)
    {
      if r.ids[i] == raw {
        out.added := out.added + multiset{Contribution(e, r.TokenOf(i), r.weights[i])};
      }
    }
  }
}
