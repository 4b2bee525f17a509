/** The shared prefill scratch of the batched fat-expert path: one buffer set per key, grown by
    powers of two, and the byte counters kept beside it. */
module FatScratch {
  import opened Totals
  import opened Arith

  /** The shape facts of a gate projection. Trellis tiles are 16 wide. */
  datatype Gate = Gate(inFeatures: nat, outFeatures: nat, k: nat, kWords: nat)

  datatype Key = Key(device: string, hidden: nat, intermediate: nat, k: nat, kWords: nat)

  function KeyOf(device: string, gate: Gate): Key {
    Key(device, gate.inFeatures, gate.outFeatures, gate.k, gate.kWords)
  }

  /** Two gates share a buffer set exactly when device and shape agree. */
  lemma {:induction false} SameKeyIff(d0: string, g0: Gate, d1: string, g1: Gate)
    ensures KeyOf(d0, g0) == KeyOf(d1, g1) <==> d0 == d1 && g0 == g1
  {
  }

  function BitLength(n: nat): nat {
    if n == 0 then 0 else 1 + BitLength(n / 2)
  }

  ghost predicate IsPow2(n: nat) {
    exists k: nat :: n == Pow2(k)
  }

  /** Shifting 1 left by the bit length of `needed - 1` gives the least power of two that is
      at least `needed`. */
  lemma {:induction false} BitLengthCovers(n: nat)
    ensures n < Pow2(BitLength(n)) && (n > 0 ==> Pow2(BitLength(n)) <= 2 * n)
  {
    if n == 0 {
    } else {
      BitLengthCovers(n / 2);
    }
  }

  lemma {:induction false} Pow2Monotone(a: nat, b: nat)
    requires a <= b
    ensures Pow2(a) <= Pow2(b)
    decreases b
  {
    if a == b {
    } else {
      Pow2Monotone(a, b - 1);
    }
  }

  /** The next power of two is at least twice as large. */
  lemma {:induction false} Pow2Doubles(a: nat, b: nat)
    requires Pow2(a) < Pow2(b)
    ensures 2 * Pow2(a) <= Pow2(b)
  {
    if b <= a { Pow2Monotone(b, a); }
    Pow2Monotone(a + 1, b);
  }

  function CapacityFor(rows: nat, configured: int): (c: nat) {
    Pow2(BitLength(Max(256, Max(rows, configured)) - 1))
  }

  lemma {:induction false} CapacityCovers(rows: nat, configured: int)
    ensures CapacityFor(rows, configured) >= Max(256, Max(rows, configured))
    ensures CapacityFor(rows, configured) < 2 * Max(256, Max(rows, configured))
    ensures IsPow2(CapacityFor(rows, configured))
  {
    BitLengthCovers(Max(256, Max(rows, configured)) - 1);
  }

  /** One tensor of a buffer set; `width` is the bytes of an element. */
  datatype Buffer = Buffer(rows: nat, columns: nat, width: nat)

  /** packed13, svh13, w13 and w2; then, with `capacity` rows each, h, h13, down, gate_up, act,
      act_h and h2. */
  function Tensors(key: Key, capacity: nat): seq<Buffer> {
    [ Buffer(key.hidden / 16, 2 * (key.intermediate / 16) * key.kWords, 2), Buffer(1, 2 * key.intermediate, 2),
      Buffer(key.hidden, 2 * key.intermediate, 2), Buffer(key.intermediate, key.hidden, 2),
      Buffer(capacity, key.hidden, 2), Buffer(capacity, key.hidden, 2), Buffer(capacity, key.hidden, 4),
      Buffer(capacity, 2 * key.intermediate, 4), Buffer(capacity, key.intermediate, 4),
      Buffer(capacity, key.intermediate, 2), Buffer(capacity, key.intermediate, 2) ]
  }

  /** The bytes of the first `m` tensors. */
  function TensorBytes(ts: seq<Buffer>, m: nat): nat
    requires m <= |ts|
  {
    if m == 0 then 0
    else
      var elements: nat := ts[m - 1].rows * ts[m - 1].columns;
      TensorBytes(ts, m - 1) + elements * ts[m - 1].width
  }

  /** Bytes of the buffers whose size does not depend on the row capacity. */
  function FixedBytes(key: Key): nat {
    TensorBytes(Tensors(key, 0), 4)
  }

  /** Bytes per row over the row-indexed buffers. */
  function RowBytes(key: Key): nat {
    8 * key.hidden + 16 * key.intermediate
  }

  function ScratchBytes(key: Key, capacity: nat): nat {
    FixedBytes(key) + capacity * RowBytes(key)
  }

  /** The byte count is the sum over all eleven tensors, for every shape and capacity. */
  lemma {:induction false} ScratchBytesIsSum(key: Key, capacity: nat)
    ensures ScratchBytes(key, capacity) == TensorBytes(Tensors(key, capacity), 11)
  {
    var ts, none := Tensors(key, capacity), Tensors(key, 0);
    SamePrefix(ts, none, 4);
    RowCost(capacity, key.hidden, key.intermediate);
    RowTensors(ts, capacity, key.hidden, key.intermediate);
    hide TensorBytes, Tensors;
  }

  lemma {:induction false} RowTensors(ts: seq<Buffer>, capacity: nat, hidden: nat, intermediate: nat)
    requires |ts| == 11
    requires ts[4..] == [Buffer(capacity, hidden, 2), Buffer(capacity, hidden, 2), Buffer(capacity, hidden, 4),
                         Buffer(capacity, 2 * intermediate, 4), Buffer(capacity, intermediate, 4),
                         Buffer(capacity, intermediate, 2), Buffer(capacity, intermediate, 2)]
    ensures TensorBytes(ts, 11) == TensorBytes(ts, 4) + 8 * (capacity * hidden) + 16 * (capacity * intermediate)
  {
    assert forall j | 4 <= j < 11 :: ts[j] == ts[4..][j - 4];
    RowCost(capacity, hidden, intermediate);
    var h: nat, i: nat := capacity * hidden, capacity * intermediate;
    hide TensorBytes;
    NextTensor(ts, 4, h, 2);
    NextTensor(ts, 5, h, 2);
    NextTensor(ts, 6, h, 4);
    NextTensor(ts, 7, 2 * i, 4);
    NextTensor(ts, 8, i, 4);
    NextTensor(ts, 9, i, 2);
    NextTensor(ts, 10, i, 2);
  }

  lemma {:induction false} NextTensor(ts: seq<Buffer>, m: nat, elements: nat, width: nat)
    requires m < |ts| && ts[m].rows * ts[m].columns == elements && ts[m].width == width
    ensures TensorBytes(ts, m + 1) == TensorBytes(ts, m) + elements * width
  {
  }

  /** In closed form: the trellis words of both projections, their scales, and three weight
      matrices in half precision, plus what each row needs. */
  lemma {:induction false} ScratchBytesClosed(key: Key, capacity: nat)
    ensures var trellis: nat := key.hidden / 16 * (key.intermediate / 16) * key.kWords;
            ScratchBytes(key, capacity) ==
            4 * trellis + 4 * key.intermediate + 6 * (key.hidden * key.intermediate)
            + capacity * (8 * key.hidden + 16 * key.intermediate)
  {
    var ts := Tensors(key, 0);
    FixedCost(key.hidden / 16, key.intermediate / 16, key.kWords, key.hidden, key.intermediate);
    assert TensorBytes(ts, 2) == ts[0].rows * ts[0].columns * 2 + 4 * key.intermediate by {
      assert TensorBytes(ts, 1) == ts[0].rows * ts[0].columns * 2;
    }
    assert TensorBytes(ts, 4) == TensorBytes(ts, 2) + 6 * (key.hidden * key.intermediate) by {
      assert TensorBytes(ts, 3) == TensorBytes(ts, 2) + 4 * (key.hidden * key.intermediate);
    }
  }

  lemma {:induction false} FixedCost(a: nat, b: nat, w: nat, h: nat, i: nat)
    ensures a * (2 * b * w) * 2 == 4 * (a * b * w)
    ensures h * (2 * i) == 2 * (h * i) && i * h == h * i
  {
    assert 2 * b * w == 2 * (b * w) && a * (b * w) == a * b * w;
  }

  lemma {:induction false} RowCost(capacity: nat, hidden: nat, intermediate: nat)
    ensures capacity * (8 * hidden + 16 * intermediate) == 8 * (capacity * hidden) + 16 * (capacity * intermediate)
    ensures capacity * (2 * intermediate) == 2 * (capacity * intermediate)
  {
  }

  lemma {:induction false} SamePrefix(a: seq<Buffer>, b: seq<Buffer>, m: nat)
    requires m <= |a| && m <= |b| && forall j | 0 <= j < m :: a[j] == b[j]
    ensures TensorBytes(a, m) == TensorBytes(b, m)
  {
    if m == 0 {
    } else {
      SamePrefix(a, b, m - 1);
    }
  }

  lemma {:induction false} MoreRowsMoreBytes(key: Key, a: nat, b: nat)
    requires a <= b
    ensures ScratchBytes(key, a) <= ScratchBytes(key, b)
  {
    hide RowBytes, FixedBytes;
    MulMonotone(a, b, RowBytes(key));
  }

  /** A buffer set of `capacity` rows holding `bytes`, after `grown` allocations. */
  ghost predicate EntryOk(k: Key, capacity: nat, bytes: nat, grown: nat) {
    IsPow2(capacity) && bytes == ScratchBytes(k, capacity) && grown >= 1 && 128 * Pow2(grown) <= capacity
  }

  ghost predicate Consistent(rows: map<Key, nat>, bytes: map<Key, nat>, grown: map<Key, nat>) {
    && rows.Keys == bytes.Keys == grown.Keys
    && forall k | k in rows :: EntryOk(k, rows[k], bytes[k], grown[k])
  }

  lemma {:induction false} NextEntry(k: Key, present: bool, capacity0: nat, bytes0: nat, grown: nat, capacity: nat)
    requires IsPow2(capacity) && capacity >= 256
    requires if present then EntryOk(k, capacity0, bytes0, grown) && capacity >= 2 * capacity0 else grown == 0
    ensures EntryOk(k, capacity, ScratchBytes(k, capacity), grown + 1)
    ensures present ==> bytes0 <= ScratchBytes(k, capacity)
  {
    assert Pow2(grown + 1) == 2 * Pow2(grown) && Pow2(0) == 1;
    if present { MoreRowsMoreBytes(k, capacity0, capacity); }
  }

  lemma {:induction false} ConsistentUpdate(
    rows: map<Key, nat>, bytes: map<Key, nat>, grown: map<Key, nat>, key: Key, capacity: nat)
    requires Consistent(rows, bytes, grown) && IsPow2(capacity) && capacity >= 256
    requires key in rows ==> capacity >= 2 * rows[key]
    ensures var times := if key in grown then grown[key] else 0;
            Consistent(rows[key := capacity], bytes[key := ScratchBytes(key, capacity)], grown[key := times + 1])
    ensures key in rows ==> bytes[key] <= ScratchBytes(key, capacity)
  {
    hide ScratchBytes, EntryOk, IsPow2;
    if key in rows {
      assert EntryOk(key, rows[key], bytes[key], grown[key]);
      NextEntry(key, true, rows[key], bytes[key], grown[key], capacity);
    } else {
      NextEntry(key, false, 0, 0, 0, capacity);
    }
  }

  lemma {:induction false} SameKeys(rows: map<Key, nat>, bytes: map<Key, nat>, grown: map<Key, nat>)
    requires Consistent(rows, bytes, grown)
    ensures rows.Keys == bytes.Keys
  {
  }

  class ScratchCache {
    var rows: map<Key, nat>       // capacity of the resident buffer set
    var bytes: map<Key, nat>
    var allocs: nat
    var residentBytes: nat
    var peakBytes: nat
    ghost var grown: map<Key, nat>  // allocations made for a key since the process started

    ghost predicate Valid()
      reads this
    {
      && Consistent(rows, bytes, grown)
      && residentBytes == MapSum(bytes)
      && peakBytes == residentBytes
    }

    constructor ()
      ensures Valid() && rows == map[] && allocs == 0
    {
      rows, bytes, allocs, residentBytes, peakBytes, grown := map[], map[], 0, 0, 0, map[];
    }

    /** The buffer set for `rows` rows of this gate; only the touched key may change. A buffer
        set that is replaced at least doubles, so a key is allocated at most once per doubling
        from 256 rows up to its capacity. */
    method Request(device: string, wanted: nat, gate: Gate, configured: int) returns (capacity: nat)
      requires Valid()
      modifies this
      ensures Valid()
      ensures var key := KeyOf(device, gate);
              && key in rows && rows == old(rows)[key := capacity] && capacity >= wanted
              && (if key in old(rows) && old(rows)[key] >= wanted
                  then capacity == old(rows)[key] && allocs == old(allocs) && grown == old(grown)
                  else capacity == CapacityFor(wanted, configured) && allocs == old(allocs) + 1
                       && (key in old(rows) ==> capacity >= 2 * old(rows)[key]))
      ensures old(residentBytes) <= residentBytes
    {
      var key := KeyOf(device, gate);
      if key in rows && rows[key] >= wanted {
        capacity := rows[key];
        assert rows[key := capacity] == rows;
        return;
      }
      capacity := CapacityFor(wanted, configured);
      CapacityCovers(wanted, configured);
      if key in rows {
        var a: nat, b: nat :| rows[key] == Pow2(a) && capacity == Pow2(b);
        Pow2Doubles(a, b);
      }
      Allocate(key, capacity);
    }

    /** Install a new buffer set under `key`. */
    method Allocate(key: Key, capacity: nat)
      requires Valid() && IsPow2(capacity) && capacity >= 256
      requires key in rows ==> capacity >= 2 * rows[key]
      modifies this
      ensures Valid() && rows == old(rows)[key := capacity] && allocs == old(allocs) + 1
      ensures old(residentBytes) <= residentBytes
    {
      hide Consistent, ScratchBytes, IsPow2, MapSum;
      ghost var times := if key in grown then grown[key] else 0;
      SameKeys(rows, bytes, grown);
      ConsistentUpdate(rows, bytes, grown, key, capacity);
      MapSumUpdate(bytes, key, ScratchBytes(key, capacity));
      grown := grown[key := times + 1];
      rows := rows[key := capacity];
      bytes := bytes[key := ScratchBytes(key, capacity)];
      allocs := allocs + 1;
      SumBytes();
      if residentBytes > peakBytes {
        peakBytes := residentBytes;
      }
    }

    /** Recompute the resident total from the per-key table. */
    method SumBytes()
      modifies this`residentBytes
      ensures residentBytes == MapSum(bytes)
    {
      var pending := bytes;
      residentBytes := 0;
      while pending != map[]
        invariant pending.Keys <= bytes.Keys && forall k | k in pending :: pending[k] == bytes[k]
        invariant residentBytes + MapSum(pending) == MapSum(bytes)
        decreases |pending|
      {
        assert exists k :: k in pending;
        var k :| k in pending;
        MapSumWithout(pending, k);
        residentBytes := residentBytes + pending[k];
        pending := pending - {k};
      }
    }

    /** Zero the windowed counters; the bytes restart from what is resident. */
    method Reset()
      requires Valid()
      modifies this
      ensures Valid() && allocs == 0 && rows == old(rows) && residentBytes == old(residentBytes)
    {
      allocs := 0;
      SumBytes();
      peakBytes := residentBytes;
    }
  }
}
