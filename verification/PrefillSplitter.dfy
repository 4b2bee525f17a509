/** The greedy splitter that packs prefill requests into indexer chunks.

    A batch is a list of requests with query lengths `q` and compressed context lengths `s`. */
module PrefillSplitter {
  import opened Arith

  /** Requests `reqStart..reqEnd`, query rows `qStart..qEnd` of their summed query rows. */
  datatype Chunk = Chunk(reqStart: nat, reqEnd: nat, qStart: nat, qEnd: nat)

  function Sum(x: seq<nat>, a: nat, b: nat): nat
    requires a <= b <= |x|
    decreases b
  {
    if a == b then 0 else Sum(x, a, b - 1) + x[b - 1]
  }

  lemma {:induction false} SumConcat(x: seq<nat>, a: nat, b: nat, c: nat)
    requires a <= b <= c <= |x|
    ensures Sum(x, a, c) == Sum(x, a, b) + Sum(x, b, c)
    decreases c
  {
    if b == c {
    } else {
      SumConcat(x, a, b, c - 1);
    }
  }

  datatype Batch = Batch(q: seq<nat>, s: seq<nat>) {
    predicate Valid() { |q| == |s| }
  }

  /** Requests `a..b` fit one chunk under the workspace and the logits budget. */
  predicate Fits(t: Batch, ws: nat, e: nat, a: nat, b: nat)
    requires t.Valid() && a <= b <= |t.q|
  {
    Sum(t.s, a, b) <= ws && Sum(t.q, a, b) * Sum(t.s, a, b) <= e
  }

  lemma {:induction false} FitsShorter(t: Batch, ws: nat, e: nat, a: nat, b: nat, c: nat)
    requires t.Valid() && a <= b <= c <= |t.q| && Fits(t, ws, e, a, c)
    ensures Fits(t, ws, e, a, b)
  {
    hide Sum;
    SumConcat(t.q, a, b, c);
    SumConcat(t.s, a, b, c);
    ProductMonotone(Sum(t.q, a, b), Sum(t.q, a, c), Sum(t.s, a, b), Sum(t.s, a, c));
  }

  /** `b` closes the slice that `a` opens: as many requests as fit, and at least one. */
  predicate ClosesSlice(t: Batch, ws: nat, e: nat, a: nat, b: nat)
    requires t.Valid()
  {
    && a < b <= |t.q|
    && (b == a + 1 || Fits(t, ws, e, a, b))
    && (b < |t.q| ==> !Fits(t, ws, e, a, b + 1))
  }

  /** The rule in sums: a slice of several requests keeps the workspace and the logits budget, and
      the request behind any slice would break one of them. */
  lemma {:induction false} ClosesSliceIff(t: Batch, ws: nat, e: nat, a: nat, b: nat)
    requires t.Valid() && a < b <= |t.q|
    ensures var m, n := Sum(t.q, a, b), Sum(t.s, a, b);
            ClosesSlice(t, ws, e, a, b) <==>
            && (b > a + 1 ==> n <= ws && m * n <= e)
            && (b < |t.q| ==> n + t.s[b] > ws || (m + t.q[b]) * (n + t.s[b]) > e)
  {
  }

  lemma {:induction false} SliceEndUnique(t: Batch, ws: nat, e: nat, a: nat, b: nat, c: nat)
    requires t.Valid() && ClosesSlice(t, ws, e, a, b) && ClosesSlice(t, ws, e, a, c)
    ensures b == c
  {
    if b < c { FitsShorter(t, ws, e, a, b + 1, c); }
    if c < b { FitsShorter(t, ws, e, a, c + 1, b); }
  }

  /** The slice end, found by search. */
  function SliceEnd(t: Batch, ws: nat, e: nat, a: nat, b: nat): (r: nat)
    requires t.Valid() && a < b <= |t.q| && (b == a + 1 || Fits(t, ws, e, a, b))
    ensures ClosesSlice(t, ws, e, a, r)
    decreases |t.q| - b
  {
    if b < |t.q| && Fits(t, ws, e, a, b + 1) then SliceEnd(t, ws, e, a, b + 1) else b
  }

  /** How many query rows one chunk of a slice may take. */
  function MaxRows(m: nat, n: nat, e: nat): (k: nat)
    ensures k >= 1
  {
    if n > 0 then Max(1, e / n) else Max(1, m)
  }

  /** The chunks of one slice from query row `off` on. */
  function SubChunks(a: nat, b: nat, m: nat, k: nat, off: nat): (c: seq<Chunk>)
    requires k >= 1
    decreases if off < m then m - off else 0
  {
    if off >= m then []
    else [Chunk(a, b, off, off + Min(k, m - off))] + SubChunks(a, b, m, k, off + k)
  }

  function Chunks(t: Batch, ws: nat, e: nat, a: nat): (c: seq<Chunk>)
    requires t.Valid() && a <= |t.q|
    decreases |t.q| - a
  {
    if a == |t.q| then []
    else
      var b := SliceEnd(t, ws, e, a, a + 1);
      var m, n := Sum(t.q, a, b), Sum(t.s, a, b);
      SubChunks(a, b, m, MaxRows(m, n, e), 0) + Chunks(t, ws, e, b)
  }

  /** The inner loop: take requests while the next one still fits, and one in any case. */
  method TakeRequests(t: Batch, ws: nat, e: nat, start: nat) returns (end: nat, chunkM: nat, chunkN: nat)
    requires t.Valid() && start < |t.q|
    ensures ClosesSlice(t, ws, e, start, end)
    ensures chunkM == Sum(t.q, start, end) && chunkN == Sum(t.s, start, end)
  {
    end, chunkM, chunkN := start, 0, 0;
    while end < |t.s|
      invariant start <= end <= |t.s|
      invariant chunkM == Sum(t.q, start, end) && chunkN == Sum(t.s, start, end)
      invariant start < end ==> Fits(t, ws, e, start, end)
      decreases |t.s| - end
    {
      var newM, newN := chunkM + t.q[end], chunkN + t.s[end];
      if newN <= ws && newM * newN <= e {
        chunkM, chunkN := newM, newN;
        end := end + 1;
      } else {
        break;
      }
    }
    if end == start {
      chunkM, chunkN := t.q[end], t.s[end];
      end := end + 1;
      OneTooMany(t, ws, e, start);
    }
  }

  lemma {:induction false} OneTooMany(t: Batch, ws: nat, e: nat, a: nat)
    requires t.Valid() && a < |t.q| && !Fits(t, ws, e, a, a + 1)
    ensures Sum(t.q, a, a + 1) == t.q[a] && Sum(t.s, a, a + 1) == t.s[a]
    ensures ClosesSlice(t, ws, e, a, a + 1)
  {
    assert Sum(t.q, a, a) == 0 && Sum(t.s, a, a) == 0;
    if a + 1 < |t.q| && Fits(t, ws, e, a, a + 2) { FitsShorter(t, ws, e, a, a + 1, a + 2); }
  }

  /** The last loop: cut the slice's query rows into pieces of at most `maxQ`. */
  method CutRows(a: nat, b: nat, chunkM: nat, maxQ: nat) returns (chunks: seq<Chunk>)
    requires maxQ >= 1
    ensures chunks == SubChunks(a, b, chunkM, maxQ, 0)
  {
    chunks := [];
    var qOff := 0;
    while qOff < chunkM
      invariant chunks + SubChunks(a, b, chunkM, maxQ, qOff) == SubChunks(a, b, chunkM, maxQ, 0)
      decreases chunkM - qOff
    {
      var c := Chunk(a, b, qOff, qOff + Min(maxQ, chunkM - qOff));
      assert chunks + ([c] + SubChunks(a, b, chunkM, maxQ, qOff + maxQ))
          == (chunks + [c]) + SubChunks(a, b, chunkM, maxQ, qOff + maxQ);
      chunks := chunks + [c];
      qOff := qOff + maxQ;
    }
  }

  lemma {:induction false} NextSlice(t: Batch, ws: nat, e: nat, a: nat, b: nat)
    requires t.Valid() && ClosesSlice(t, ws, e, a, b)
    ensures var m, n := Sum(t.q, a, b), Sum(t.s, a, b);
            Chunks(t, ws, e, a) == SubChunks(a, b, m, MaxRows(m, n, e), 0) + Chunks(t, ws, e, b)
  {
    SliceEndUnique(t, ws, e, a, b, SliceEnd(t, ws, e, a, a + 1));
    hide Fits, Sum, MaxRows, SubChunks;
  }

  lemma {:induction false} SliceEndInRange(t: Batch, ws: nat, e: nat, a: nat, b: nat)
    requires t.Valid() && ClosesSlice(t, ws, e, a, b)
    ensures a < b <= |t.q|
  {
  }

  lemma {:induction false} NoMoreChunks(t: Batch, ws: nat, e: nat)
    requires t.Valid()
    ensures Chunks(t, ws, e, |t.q|) == []
  {
  }

  /** `split_prefill_chunks`. */
  method SplitPrefillChunks(t: Batch, ws: nat, maxLogitsBytes: nat) returns (chunks: seq<Chunk>)
    requires t.Valid()
    ensures chunks == Chunks(t, ws, maxLogitsBytes / 4, 0)
  {
    hide ClosesSlice, Sum, MaxRows, SubChunks, Chunks;
    chunks := [];
    NoMoreChunks(t, ws, maxLogitsBytes / 4);
    var e := maxLogitsBytes / 4;
    var end := 0;
    while end < |t.s|
      invariant end <= |t.s|
      invariant chunks + Chunks(t, ws, e, end) == Chunks(t, ws, e, 0)
      decreases |t.s| - end
    {
      var start := end;
      var chunkM, chunkN;
      end, chunkM, chunkN := TakeRequests(t, ws, e, start);
      SliceEndInRange(t, ws, e, start, end);
      NextSlice(t, ws, e, start, end);
      var cut := CutRows(start, end, chunkM, MaxRows(chunkM, chunkN, e));
      assert chunks + (cut + Chunks(t, ws, e, end)) == (chunks + cut) + Chunks(t, ws, e, end);
      chunks := chunks + cut;
    }
  }

  // What the chunk list is.

  /** One chunk is legal: its slice is closed by the greedy rule, it takes at least one query
      row of it, it stays within the logits budget unless it is a single row, it is as tall as
      the budget allows unless it ends the slice, and a slice of several requests is whole. */
  ghost predicate LegalChunk(t: Batch, ws: nat, e: nat, c: Chunk)
    requires t.Valid()
  {
    && ClosesSlice(t, ws, e, c.reqStart, c.reqEnd)
    && var m, n := Sum(t.q, c.reqStart, c.reqEnd), Sum(t.s, c.reqStart, c.reqEnd);
    && c.qStart < c.qEnd <= m
    && ((c.qEnd - c.qStart) * n <= e || c.qEnd == c.qStart + 1)
    && (c.qEnd < m ==> (c.qEnd - c.qStart + 1) * n > e)
    && (c.reqEnd > c.reqStart + 1 ==> c.qStart == 0 && c.qEnd == m)
  }

  /** Closing slice after slice from `from` on, one of them opens at `a`. */
  ghost predicate Opens(t: Batch, ws: nat, e: nat, from: nat, a: nat)
    requires t.Valid() && from <= |t.q|
    decreases |t.q| - from
  {
    from == a || (from < |t.q| && Opens(t, ws, e, SliceEnd(t, ws, e, from, from + 1), a))
  }

  lemma {:induction false} OpensBehind(t: Batch, ws: nat, e: nat, from: nat, a: nat)
    requires t.Valid() && from <= |t.q| && Opens(t, ws, e, from, a)
    ensures from <= a
    decreases |t.q| - from
  {
    if from == a {
    } else {
      OpensBehind(t, ws, e, SliceEnd(t, ws, e, from, from + 1), a);
    }
  }

  /** Slices of one chain do not overlap. */
  lemma {:induction false} SlicesApart(t: Batch, ws: nat, e: nat, from: nat, a: nat, b: nat)
    requires t.Valid() && from <= |t.q| && Opens(t, ws, e, from, a) && Opens(t, ws, e, from, b) && a < b
    ensures a < |t.q| && SliceEnd(t, ws, e, a, a + 1) <= b
    decreases |t.q| - from
  {
    OpensBehind(t, ws, e, from, a);
    var next := SliceEnd(t, ws, e, from, from + 1);
    if from == a {
      OpensBehind(t, ws, e, next, b);
    } else {
      SlicesApart(t, ws, e, next, a, b);
    }
  }

  /** Query rows numbered over the whole batch. */
  function RowAt(t: Batch, req: nat, row: nat): nat
    requires req <= |t.q|
  {
    Sum(t.q, 0, req) + row
  }

  /** The chunks' query rows, read in order, are exactly the rows `from..to` of the batch. */
  ghost predicate Tiles(t: Batch, c: seq<Chunk>, from: nat, to: nat)
  {
    if c == [] then from == to
    else
      && c[0].reqStart <= |t.q|
      && RowAt(t, c[0].reqStart, c[0].qStart) == from < RowAt(t, c[0].reqStart, c[0].qEnd)
      && Tiles(t, c[1..], RowAt(t, c[0].reqStart, c[0].qEnd), to)
  }

  lemma {:induction false} TilesConcat(t: Batch, c: seq<Chunk>, d: seq<Chunk>, from: nat, mid: nat, to: nat)
    requires Tiles(t, c, from, mid) && Tiles(t, d, mid, to)
    ensures Tiles(t, c + d, from, to)
  {
    if c == [] {
      assert c + d == d;
    } else {
      TilesConcat(t, c[1..], d, RowAt(t, c[0].reqStart, c[0].qEnd), mid, to);
      assert (c + d)[1..] == c[1..] + d;
    }
  }

  /** A chunk no taller than the maximum keeps the budget, or is a single row. */
  lemma {:induction false} RowsFit(m: nat, n: nat, e: nat, r: nat)
    requires r <= MaxRows(m, n, e)
    ensures r * n <= e || r <= 1
  {
    if n > 0 && r > 1 {
      Quotient(e, n);
      MulMonotone(r, e / n, n);
    }
  }

  /** One row more than the maximum breaks the budget when the slice is taller; a slice within
      the budget is never taller. */
  lemma {:induction false} MaxRowsIsTight(m: nat, n: nat, e: nat)
    ensures MaxRows(m, n, e) < m ==> (MaxRows(m, n, e) + 1) * n > e && m * n > e
  {
    var k := MaxRows(m, n, e);
    if k < m {
      Quotient(e, n);
      assert (e / n + 1) * n == e / n * n + n;
      MulMonotone(e / n + 1, k + 1, n);
      MulMonotone(k + 1, m, n);
    }
  }

  lemma {:induction false} SubChunksTile(t: Batch, a: nat, b: nat, m: nat, k: nat, off: nat)
    requires k >= 1 && a <= |t.q| && off <= m
    ensures Tiles(t, SubChunks(a, b, m, k, off), RowAt(t, a, off), RowAt(t, a, m))
    decreases m - off
  {
    if off + k < m {
      SubChunksTile(t, a, b, m, k, off + k);
    } else if off < m {
      assert SubChunks(a, b, m, k, off + k) == [];
    }
  }

  lemma {:induction false} SubChunksShape(a: nat, b: nat, m: nat, k: nat, off: nat, i: nat)
    requires k >= 1 && i < |SubChunks(a, b, m, k, off)|
    ensures var c := SubChunks(a, b, m, k, off)[i];
            && c.reqStart == a && c.reqEnd == b && off <= c.qStart < c.qEnd <= m
            && c.qEnd - c.qStart <= k && (c.qEnd < m ==> c.qEnd - c.qStart == k)
            && (k >= m ==> c.qStart == off)
    decreases i
  {
    if i == 0 {
    } else {
      SubChunksShape(a, b, m, k, off + k, i - 1);
    }
  }

  lemma {:induction false} SliceChunksLegal(t: Batch, ws: nat, e: nat, a: nat, b: nat, i: nat)
    requires t.Valid() && ClosesSlice(t, ws, e, a, b)
    requires var m, n := Sum(t.q, a, b), Sum(t.s, a, b); i < |SubChunks(a, b, m, MaxRows(m, n, e), 0)|
    ensures var m, n := Sum(t.q, a, b), Sum(t.s, a, b);
            LegalChunk(t, ws, e, SubChunks(a, b, m, MaxRows(m, n, e), 0)[i])
  {
    var m, n := Sum(t.q, a, b), Sum(t.s, a, b);
    var k := MaxRows(m, n, e);
    SubChunksShape(a, b, m, k, 0, i);
    var c := SubChunks(a, b, m, k, 0)[i];
    RowsFit(m, n, e, c.qEnd - c.qStart);
    MaxRowsIsTight(m, n, e);
    hide MaxRows, SubChunks, Sum;
  }

  /** The chunk list covers every query row once, in order, with legal chunks only. */
  lemma {:induction false} ChunksCoverBatch(t: Batch, ws: nat, e: nat, a: nat)
    requires t.Valid() && a <= |t.q|
    ensures Tiles(t, Chunks(t, ws, e, a), RowAt(t, a, 0), RowAt(t, |t.q|, 0))
    ensures forall i | 0 <= i < |Chunks(t, ws, e, a)| :: LegalChunk(t, ws, e, Chunks(t, ws, e, a)[i])
    ensures forall i | 0 <= i < |Chunks(t, ws, e, a)| :: Opens(t, ws, e, a, Chunks(t, ws, e, a)[i].reqStart)
    decreases |t.q| - a
  {
    if a < |t.q| {
      hide LegalChunk, Tiles, SubChunks, MaxRows, Fits;
      var b := SliceEnd(t, ws, e, a, a + 1);
      var m, n := Sum(t.q, a, b), Sum(t.s, a, b);
      var here, rest := SubChunks(a, b, m, MaxRows(m, n, e), 0), Chunks(t, ws, e, b);
      ChunksCoverBatch(t, ws, e, b);
      SubChunksTile(t, a, b, m, MaxRows(m, n, e), 0);
      SumConcat(t.q, 0, a, b);
      TilesConcat(t, here, rest, RowAt(t, a, 0), RowAt(t, b, 0), RowAt(t, |t.q|, 0));
      forall i | 0 <= i < |here| ensures LegalChunk(t, ws, e, here[i]) && here[i].reqStart == a {
        SliceChunksLegal(t, ws, e, a, b, i);
        SubChunksShape(a, b, m, MaxRows(m, n, e), 0, i);
      }
    } else {
      TilesEmpty(t, RowAt(t, a, 0));
    }
  }

  lemma {:induction false} TilesEmpty(t: Batch, at: nat)
    ensures Tiles(t, [], at, at)
  {
  }

  lemma {:induction false} TilesForward(t: Batch, c: seq<Chunk>, from: nat, to: nat)
    requires Tiles(t, c, from, to)
    ensures from <= to && (c != [] ==> from < to)
  {
    if c == [] {
    } else {
      TilesForward(t, c[1..], RowAt(t, c[0].reqStart, c[0].qEnd), to);
    }
  }

  /** A legal chunk starts inside the first request of its slice. */
  lemma {:induction false} StartsInFirstRequest(t: Batch, ws: nat, e: nat, c: Chunk)
    requires t.Valid() && LegalChunk(t, ws, e, c) && forall i | 0 <= i < |t.q| :: t.q[i] >= 1
    ensures c.reqStart < |t.q| && c.qStart < t.q[c.reqStart]
  {
    if c.reqEnd == c.reqStart + 1 {
      assert Sum(t.q, c.reqStart, c.reqEnd) == t.q[c.reqStart] + Sum(t.q, c.reqStart, c.reqStart);
    }
  }

  lemma {:induction false} RowsOfEarlierRequest(t: Batch, a: nat, b: nat, row: nat)
    requires a < b < |t.q| && row < t.q[a]
    ensures RowAt(t, a, row) < RowAt(t, b, 0)
  {
    SumConcat(t.q, 0, a + 1, b);
  }

  /** The row a chunk starts at determines the chunk. */
  lemma {:induction false} StartDeterminesChunk(t: Batch, ws: nat, e: nat, c: Chunk, d: Chunk)
    requires t.Valid() && forall i | 0 <= i < |t.q| :: t.q[i] >= 1
    requires LegalChunk(t, ws, e, c) && LegalChunk(t, ws, e, d)
    requires RowAt(t, c.reqStart, c.qStart) == RowAt(t, d.reqStart, d.qStart)
    ensures c == d
  {
    StartsInFirstRequest(t, ws, e, c);
    StartsInFirstRequest(t, ws, e, d);
    if c.reqStart < d.reqStart { RowsOfEarlierRequest(t, c.reqStart, d.reqStart, c.qStart); }
    if d.reqStart < c.reqStart { RowsOfEarlierRequest(t, d.reqStart, c.reqStart, d.qStart); }
    SliceEndUnique(t, ws, e, c.reqStart, c.reqEnd, d.reqEnd);
    SameHeight(t, ws, e, c, d);
  }

  lemma {:induction false} RowsBehindSlice(t: Batch, a: nat, b: nat, d: nat, row: nat)
    requires a <= b <= d <= |t.q| && row < Sum(t.q, a, b)
    ensures RowAt(t, a, row) < RowAt(t, d, 0)
  {
    SumConcat(t.q, 0, a, b);
    SumConcat(t.q, 0, b, d);
  }

  /** Among chunks of the greedy chain the row alone determines the chunk, with or without
      requests that bring no rows. */
  lemma {:induction false} StartDeterminesChainChunk(t: Batch, ws: nat, e: nat, c: Chunk, d: Chunk)
    requires t.Valid() && LegalChunk(t, ws, e, c) && LegalChunk(t, ws, e, d)
    requires Opens(t, ws, e, 0, c.reqStart) && Opens(t, ws, e, 0, d.reqStart)
    requires RowAt(t, c.reqStart, c.qStart) == RowAt(t, d.reqStart, d.qStart)
    ensures c == d
  {
    hide Opens, Sum;
    SliceEndUnique(t, ws, e, c.reqStart, c.reqEnd, SliceEnd(t, ws, e, c.reqStart, c.reqStart + 1));
    SliceEndUnique(t, ws, e, d.reqStart, d.reqEnd, SliceEnd(t, ws, e, d.reqStart, d.reqStart + 1));
    if c.reqStart < d.reqStart {
      SlicesApart(t, ws, e, 0, c.reqStart, d.reqStart);
      RowsBehindSlice(t, c.reqStart, c.reqEnd, d.reqStart, c.qStart);
    }
    if d.reqStart < c.reqStart {
      SlicesApart(t, ws, e, 0, d.reqStart, c.reqStart);
      RowsBehindSlice(t, d.reqStart, d.reqEnd, c.reqStart, d.qStart);
    }
    SameHeight(t, ws, e, c, d);
  }

  lemma {:induction false} SameHeight(t: Batch, ws: nat, e: nat, c: Chunk, d: Chunk)
    requires t.Valid() && LegalChunk(t, ws, e, c) && LegalChunk(t, ws, e, d)
    requires c.reqStart == d.reqStart && c.reqEnd == d.reqEnd && c.qStart == d.qStart
    ensures c == d
  {
    var n := Sum(t.s, c.reqStart, c.reqEnd);
    if c.qEnd < d.qEnd { MulMonotone(c.qEnd - c.qStart + 1, d.qEnd - d.qStart, n); }
    if d.qEnd < c.qEnd { MulMonotone(d.qEnd - d.qStart + 1, c.qEnd - c.qStart, n); }
  }

  /** Legal chunks of the greedy chain that cover the rows in order leave no choice: any such
      list is the splitter's, for every batch. */
  lemma {:induction false} CoveringIsUnique(t: Batch, ws: nat, e: nat, c: seq<Chunk>, d: seq<Chunk>, from: nat, to: nat)
    requires t.Valid() && Tiles(t, c, from, to) && Tiles(t, d, from, to)
    requires forall i | 0 <= i < |c| :: LegalChunk(t, ws, e, c[i]) && Opens(t, ws, e, 0, c[i].reqStart)
    requires forall i | 0 <= i < |d| :: LegalChunk(t, ws, e, d[i]) && Opens(t, ws, e, 0, d[i].reqStart)
    ensures c == d
    decreases |c|
  {
    hide LegalChunk, Opens;
    TilesForward(t, c, from, to);
    TilesForward(t, d, from, to);
    if c == [] {
    } else {
      assert d != [];
      StartDeterminesChainChunk(t, ws, e, c[0], d[0]);
      CoveringIsUnique(t, ws, e, c[1..], d[1..], RowAt(t, c[0].reqStart, c[0].qEnd), to);
    }
  }

  /** When every request brings a query row, legality alone is enough. */
  lemma {:induction false} RowsDetermineCovering(
    t: Batch, ws: nat, e: nat, c: seq<Chunk>, d: seq<Chunk>, from: nat, to: nat)
    requires t.Valid() && forall i | 0 <= i < |t.q| :: t.q[i] >= 1
    requires Tiles(t, c, from, to) && Tiles(t, d, from, to)
    requires forall i | 0 <= i < |c| :: LegalChunk(t, ws, e, c[i])
    requires forall i | 0 <= i < |d| :: LegalChunk(t, ws, e, d[i])
    ensures c == d
    decreases |c|
  {
    hide LegalChunk;
    TilesForward(t, c, from, to);
    TilesForward(t, d, from, to);
    if c == [] {
    } else {
      assert d != [];
      StartDeterminesChunk(t, ws, e, c[0], d[0]);
      RowsDetermineCovering(t, ws, e, c[1..], d[1..], RowAt(t, c[0].reqStart, c[0].qEnd), to);
    }
  }

  /** A request without rows leaves a choice of slices that both cover: that is why the chain
      matters. */
  lemma {:induction false} EmptyRequestLeavesChoice()
    ensures var t := Batch([0, 1], [1, 1]);
            && LegalChunk(t, 2, 2, Chunk(0, 2, 0, 1)) && Tiles(t, [Chunk(0, 2, 0, 1)], 0, 1)
            && LegalChunk(t, 2, 2, Chunk(1, 2, 0, 1)) && Tiles(t, [Chunk(1, 2, 0, 1)], 0, 1)
  {
    var t := Batch([0, 1], [1, 1]);
    assert Sum(t.q, 0, 0) == 0 && Sum(t.q, 0, 1) == 0 && Sum(t.q, 0, 2) == 1;
    assert Sum(t.q, 1, 1) == 0 && Sum(t.q, 1, 2) == 1;
    assert Sum(t.s, 0, 1) == 1 && Sum(t.s, 0, 2) == 2 && Sum(t.s, 1, 1) == 0 && Sum(t.s, 1, 2) == 1;
    hide Sum;
    var x, y := [Chunk(0, 2, 0, 1)], [Chunk(1, 2, 0, 1)];
    assert x[1..] == [] && y[1..] == [];
  }

  // The workspace.

  /** A workspace that holds the whole batch never decides a cut. */
  lemma {:induction false} LargeWorkspacesAgree(t: Batch, ws0: nat, ws1: nat, e: nat, a: nat)
    requires t.Valid() && a <= |t.q|
    requires Sum(t.s, 0, |t.s|) <= ws0 && Sum(t.s, 0, |t.s|) <= ws1
    ensures Chunks(t, ws0, e, a) == Chunks(t, ws1, e, a)
    decreases |t.q| - a
  {
    if a == |t.q| {
    } else {
      var b := SliceEnd(t, ws0, e, a, a + 1);
      FitsAlike(t, ws0, ws1, e, a, b);
      if b < |t.q| { FitsAlike(t, ws0, ws1, e, a, b + 1); }
      SliceEndUnique(t, ws1, e, a, b, SliceEnd(t, ws1, e, a, a + 1));
      LargeWorkspacesAgree(t, ws0, ws1, e, b);
    }
  }

  lemma {:induction false} FitsAlike(t: Batch, ws0: nat, ws1: nat, e: nat, a: nat, b: nat)
    requires t.Valid() && a <= b <= |t.q|
    requires Sum(t.s, 0, |t.s|) <= ws0 && Sum(t.s, 0, |t.s|) <= ws1
    ensures Fits(t, ws0, e, a, b) == Fits(t, ws1, e, a, b)
  {
    SumConcat(t.s, 0, a, b);
    SumConcat(t.s, 0, b, |t.s|);
  }
}
