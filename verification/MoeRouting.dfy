/** Top-k routing of an EXL3 mixture-of-experts layer: the two ways the program maps a
    global expert id to a local expert, the sort by expert, and the segment every expert
    owns in the sorted buffer.

    What a pass adds to the output is a multiset of `Contribution`s, so neither the order of
    floating-point additions nor the expert arithmetic itself is part of the model. */
module MoeRouting {
  import opened Arith
  import opened Wrappers

  /** One row handed to one expert. `expert == n` is the sentinel for "not local". */
  datatype Contribution = Contribution(expert: nat, token: nat, weight: real)

  /** Row-major (token, k) routing: pair `i` belongs to token `i / topk`. */
  datatype Routing = Routing(tokens: nat, topk: nat, ids: seq<int>, weights: seq<real>) {
    predicate Valid() {
      |ids| == tokens * topk == |weights|
    }

    function TokenOf(i: nat): nat
    {
      if topk == 0 then 0 else i / topk
    }
  }

  /** `TokenOf` undoes the flattening: the `k`-th choice of token `t` stands at `t * topk + k`,
      whatever the number of tokens. */
  lemma {:induction false} PairOfToken(r: Routing, t: nat, k: nat)
    requires r.Valid() && t < r.tokens && k < r.topk
    ensures t * r.topk + k < |r.ids|
    ensures r.TokenOf(t * r.topk + k) == t
  {
    DivUnique(t * r.topk + k, r.topk, t, k);
    MulMonotone(t + 1, r.tokens, r.topk);
    assert (t + 1) * r.topk == t * r.topk + r.topk;
  }

  /** The fused path's mapping; everything invalid becomes the sentinel `n`. */
  function MapTopkToLocal(id: int, n: nat, emap: Option<seq<int>>): (e: nat)
  {
    match emap
    case None => if id < 0 || id >= n then n else id
    case Some(m) =>
      if id < 0 || id >= |m| || m[id] < 0 || m[id] >= n then n else m[id]
  }

  /** The per-expert loop's mapping. An id past the end of the map stands for itself. */
  function LoopExpert(id: int, n: nat, emap: Option<seq<int>>): (e: nat)
  {
    if id < 0 then n
    else
      var mapped := if emap.Some? && id < |emap.value| then emap.value[id] else id;
      if mapped < 0 || mapped >= n then n else mapped
  }

  /** The ids on which the two mappings differ. */
  predicate OffMap(id: int, n: nat, emap: Option<seq<int>>)
  {
    emap.Some? && |emap.value| <= id < n
  }

  lemma {:induction false} MappingsDiffer(id: int, n: nat, emap: Option<seq<int>>)
    ensures MapTopkToLocal(id, n, emap) <= n
    ensures OffMap(id, n, emap) ==>
              MapTopkToLocal(id, n, emap) == n && LoopExpert(id, n, emap) == id
    ensures MapTopkToLocal(id, n, emap) == LoopExpert(id, n, emap) <==> !OffMap(id, n, emap)
  {
  }

  // The routed pairs as items, under each mapping, and the pairs only the loop sees.

  function FusedItem(r: Routing, n: nat, emap: Option<seq<int>>, i: nat): Contribution
    requires r.Valid() && i < |r.ids|
  {
    Contribution(MapTopkToLocal(r.ids[i], n, emap), r.TokenOf(i), r.weights[i])
  }

  function LoopItem(r: Routing, n: nat, emap: Option<seq<int>>, i: nat): Contribution
    requires r.Valid() && i < |r.ids|
  {
    Contribution(LoopExpert(r.ids[i], n, emap), r.TokenOf(i), r.weights[i])
  }

  function OffMapItem(r: Routing, n: nat, emap: Option<seq<int>>, i: nat): Contribution
    requires r.Valid() && i < |r.ids|
  {
    Contribution(if OffMap(r.ids[i], n, emap) then r.ids[i] else n, r.TokenOf(i), r.weights[i])
  }

  function FusedItems(r: Routing, n: nat, emap: Option<seq<int>>): (s: seq<Contribution>)
    requires r.Valid()
  {
    seq(|r.ids|, i requires 0 <= i < |r.ids| => FusedItem(r, n, emap, i))
  }

  function LoopItems(r: Routing, n: nat, emap: Option<seq<int>>): (s: seq<Contribution>)
    requires r.Valid()
  {
    seq(|r.ids|, i requires 0 <= i < |r.ids| => LoopItem(r, n, emap, i))
  }

  function OffMapItems(r: Routing, n: nat, emap: Option<seq<int>>): (s: seq<Contribution>)
    requires r.Valid()
  {
    seq(|r.ids|, i requires 0 <= i < |r.ids| => OffMapItem(r, n, emap, i))
  }

  function Experts(n: nat): (es: set<nat>)
    ensures forall e: nat :: e in es <==> e < n
  {
    if n == 0 then {} else Experts(n - 1) + {n - 1}
  }

  /** The items whose expert is in `keep`. */
  function Select(s: seq<Contribution>, keep: set<nat>): multiset<Contribution>
  {
    if s == [] then multiset{}
    else Select(s[..|s| - 1], keep) +
         (if s[|s| - 1].expert in keep then multiset{s[|s| - 1]} else multiset{})
  }

  lemma {:induction false} SelectCount(s: seq<Contribution>, keep: set<nat>, c: Contribution)
    ensures Select(s, keep)[c] == if c.expert in keep then multiset(s)[c] else 0
  {
    if s == [] {
    } else {
      SelectCount(s[..|s| - 1], keep, c);
      assert s == s[..|s| - 1] + [s[|s| - 1]];
    }
  }

  lemma {:induction false} SelectOfPermutation(s: seq<Contribution>, t: seq<Contribution>, keep: set<nat>)
    requires multiset(s) == multiset(t)
    ensures Select(s, keep) == Select(t, keep)
  {
    forall c: Contribution ensures Select(s, keep)[c] == Select(t, keep)[c] {
      SelectCount(s, keep, c);
      SelectCount(t, keep, c);
    }
  }

  lemma {:induction false} SelectDisjoint(s: seq<Contribution>, a: set<nat>, b: set<nat>)
    requires a !! b
    ensures Select(s, a + b) == Select(s, a) + Select(s, b)
  {
    forall c: Contribution ensures Select(s, a + b)[c] == (Select(s, a) + Select(s, b))[c] {
      SelectCount(s, a + b, c);
      SelectCount(s, a, c);
      SelectCount(s, b, c);
    }
  }

  lemma {:induction false} SelectEmpty(s: seq<Contribution>, keep: set<nat>)
    ensures Select(s, keep) == multiset{} <==> forall i | 0 <= i < |s| :: s[i].expert !in keep
  {
    if i :| 0 <= i < |s| && s[i].expert in keep {
      SelectCount(s, keep, s[i]);
    } else {
      forall c: Contribution ensures Select(s, keep)[c] == 0 {
        SelectCount(s, keep, c);
        if multiset(s)[c] > 0 { assert c in s; }
      }
    }
  }

  /** The loop contributes what the fused path does, plus the pairs routed off the map. */
  lemma {:induction false} LoopIsFusedPlusOffMap(
    a: seq<Contribution>, b: seq<Contribution>, d: seq<Contribution>, n: nat, keep: set<nat>)
    requires |a| == |b| == |d| && n !in keep
    requires forall i | 0 <= i < |a| ::
      (b[i] == a[i] && d[i].expert == n) || (b[i] == d[i] && a[i].expert == n)
    ensures Select(b, keep) == Select(a, keep) + Select(d, keep)
  {
    if a == [] {
    } else {
      var m := |a| - 1;
      LoopIsFusedPlusOffMap(a[..m], b[..m], d[..m], n, keep);
    }
  }

  lemma {:induction false} LoopSplit(r: Routing, n: nat, emap: Option<seq<int>>, keep: set<nat>)
    requires r.Valid() && n !in keep
    ensures Select(LoopItems(r, n, emap), keep) ==
            Select(FusedItems(r, n, emap), keep) + Select(OffMapItems(r, n, emap), keep)
  {
    forall i | 0 <= i < |r.ids| ensures
      var a, b, d := FusedItems(r, n, emap)[i], LoopItems(r, n, emap)[i], OffMapItems(r, n, emap)[i];
      (b == a && d.expert == n) || (b == d && a.expert == n)
    {
      MappingsDiffer(r.ids[i], n, emap);
    }
    LoopIsFusedPlusOffMap(FusedItems(r, n, emap), LoopItems(r, n, emap), OffMapItems(r, n, emap), n, keep);
  }

  // Sorting by expert.

  lemma {:induction false} RemoveAt<A>(s: seq<A>, j: nat)
    requires j < |s|
    ensures multiset(s) == multiset(s[..j] + s[j + 1..]) + multiset{s[j]}
  {
    assert s == s[..j] + [s[j]] + s[j + 1..];
  }

  function Mapped<A, B>(f: A -> B, s: seq<A>): (t: seq<B>)
    ensures |t| == |s| && forall i | 0 <= i < |s| :: t[i] == f(s[i])
  {
    seq(|s|, i requires 0 <= i < |s| => f(s[i]))
  }

  lemma {:induction false} MappedRemoveAt<A, B>(f: A -> B, s: seq<A>, j: nat)
    requires j < |s|
    ensures multiset(Mapped(f, s)) ==
            multiset(Mapped(f, s[..j] + s[j + 1..])) + multiset{f(s[j])}
  {
    RemoveAt(Mapped(f, s), j);
    assert Mapped(f, s[..j] + s[j + 1..]) == Mapped(f, s)[..j] + Mapped(f, s)[j + 1..];
  }

  lemma {:induction false} Occurrence<A>(s: seq<A>, x: A) returns (j: nat)
    requires x in multiset(s)
    ensures j < |s| && s[j] == x
  {
    assert x in s;
    j :| j < |s| && s[j] == x;
  }

  lemma {:induction false} RemovedAlike<A>(a: seq<A>, b: seq<A>, j: nat)
    requires multiset(a) == multiset(b) && |a| > 0 && j < |b| && b[j] == a[0]
    ensures multiset(a[..0] + a[1..]) == multiset(b[..j] + b[j + 1..])
  {
    RemoveAt(a, 0);
    RemoveAt(b, j);
    TakenOut(multiset(a), multiset(a[..0] + a[1..]), a[0]);
    TakenOut(multiset(b), multiset(b[..j] + b[j + 1..]), a[0]);
  }

  lemma {:induction false} TakenOut<A>(whole: multiset<A>, rest: multiset<A>, x: A)
    requires whole == rest + multiset{x}
    ensures rest == whole - multiset{x}
  {
  }

  lemma {:induction false} MapPreservesMultiset<A, B>(f: A -> B, a: seq<A>, b: seq<A>)
    requires multiset(a) == multiset(b)
    ensures multiset(Mapped(f, a)) == multiset(Mapped(f, b))
    decreases |a|
  {
    hide Mapped;
    if a == [] {
      assert |multiset(b)| == 0;
    } else {
      var j := Occurrence(b, a[0]);
      RemovedAlike(a, b, j);
      MapPreservesMultiset(f, a[..0] + a[1..], b[..j] + b[j + 1..]);
      MappedRemoveAt(f, a, 0);
      MappedRemoveAt(f, b, j);
    }
  }

  predicate Sorted(k: seq<nat>) {
    forall i, j | 0 <= i < j < |k| :: k[i] <= k[j]
  }

  function Identity(n: nat): seq<nat> {
    seq(n, i => i)
  }

  function ExpertOf(c: Contribution): nat {
    c.expert
  }

  function ExpertsOf(s: seq<Contribution>): (k: seq<nat>)
    ensures |k| == |s|
  {
    Mapped(ExpertOf, s)
  }

  /** `order` sorts the items by expert. Nothing says how ties are broken: the sort the
      program calls is not stable. */
  ghost predicate IsArgsort(items: seq<Contribution>, order: seq<nat>) {
    && |order| == |items|
    && multiset(order) == multiset(Identity(|items|))
    && (forall i | 0 <= i < |order| :: order[i] < |items|)
    && forall i, j | 0 <= i < j < |order| :: items[order[i]].expert <= items[order[j]].expert
  }

  function Gather(items: seq<Contribution>, order: seq<nat>): (s: seq<Contribution>)
    requires forall i | 0 <= i < |order| :: order[i] < |items|
  {
    seq(|order|, i requires 0 <= i < |order| => items[order[i]])
  }

  lemma {:induction false} GatherPermutes(items: seq<Contribution>, order: seq<nat>)
    requires IsArgsort(items, order)
    ensures multiset(Gather(items, order)) == multiset(items)
    ensures Sorted(ExpertsOf(Gather(items, order)))
  {
    var f: nat -> Contribution :=
      (i: nat) => if i < |items| then items[i] else Contribution(0, 0, 0.0);
    MapPreservesMultiset(f, order, Identity(|items|));
    assert Gather(items, order) == Mapped(f, order);
    assert items == Mapped(f, Identity(|items|));
  }

  // Counts and offsets.

  /** Entry `e` counts the items of expert `e`; the sentinel's rows are not included. */
  function Counts(s: seq<Contribution>, n: nat): (c: seq<nat>)
    ensures |c| == n
  {
    seq(n, e requires 0 <= e < n => multiset(ExpertsOf(s))[e])
  }

  function Offset(counts: seq<nat>, e: nat): (o: nat)
    requires e <= |counts|
  {
    if e == 0 then 0 else Offset(counts, e - 1) + counts[e - 1]
  }

  lemma {:induction false} OffsetMonotone(counts: seq<nat>, a: nat, b: nat)
    requires a <= b <= |counts|
    ensures Offset(counts, a) <= Offset(counts, b)
    decreases b
  {
    if a == b {
    } else {
      OffsetMonotone(counts, a, b - 1);
    }
  }

  lemma {:induction false} NotIn(k: seq<nat>, e: nat)
    requires e !in k
    ensures multiset(k)[e] == 0
  {
  }

  lemma {:induction false} LeadingRun(k: seq<nat>, e: nat)
    requires Sorted(k) && forall i | 0 <= i < |k| :: k[i] >= e
    ensures multiset(k)[e] <= |k|
    ensures forall i | 0 <= i < |k| :: i < multiset(k)[e] <==> k[i] == e
  {
    if k == [] {
    } else {
      LeadingRun(k[1..], e);
      assert k == [k[0]] + k[1..];
      if k[0] != e { NotIn(k[1..], e); }
    }
  }

  /** One step: the rows below `e` end at `lo`, so the rows of `e` are the next ones. */
  lemma {:induction false} NextSegment(k: seq<nat>, lo: nat, e: nat)
    requires Sorted(k) && lo <= |k|
    requires forall i | 0 <= i < |k| :: i < lo <==> k[i] < e
    ensures lo + multiset(k)[e] <= |k|
    ensures forall i | 0 <= i < |k| :: i < lo + multiset(k)[e] <==> k[i] < e + 1
  {
    var head, tail := k[..lo], k[lo..];
    assert k == head + tail;
    NotIn(head, e);
    assert multiset(k)[e] == multiset(tail)[e];
    forall i | 0 <= i < |tail| ensures tail[i] >= e {
      assert tail[i] == k[lo + i];
    }
    LeadingRun(tail, e);
    forall i | 0 <= i < |k| ensures i < lo + multiset(k)[e] <==> k[i] < e + 1 {
      if i >= lo { assert tail[i - lo] == k[i]; }
    }
  }

  /** In a sorted buffer, expert `e` owns exactly the rows from its offset on. */
  lemma {:induction false} SortedSegments(s: seq<Contribution>, n: nat, e: nat)
    requires Sorted(ExpertsOf(s)) && e <= n
    ensures Offset(Counts(s, n), e) <= |s|
    ensures forall i | 0 <= i < |s| :: i < Offset(Counts(s, n), e) <==> s[i].expert < e
    decreases e
  {
    if e == 0 {
    } else {
      SortedSegments(s, n, e - 1);
      var k := ExpertsOf(s);
      NextSegment(k, Offset(Counts(s, n), e - 1), e - 1);
      forall i | 0 <= i < |s| ensures i < Offset(Counts(s, n), e) <==> s[i].expert < e {
        assert k[i] == s[i].expert;
      }
    }
  }

  lemma {:induction false} CountsOfPermutation(s: seq<Contribution>, t: seq<Contribution>, n: nat)
    requires multiset(s) == multiset(t)
    ensures Counts(s, n) == Counts(t, n)
  {
    MapPreservesMultiset(ExpertOf, s, t);
    assert ExpertsOf(s) == Mapped(ExpertOf, s) && ExpertsOf(t) == Mapped(ExpertOf, t);
    assert multiset(ExpertsOf(s)) == multiset(ExpertsOf(t));
  }
}
