/** The drafter's place in the KV pool: the group it forms, which layouts are accepted, and what
    the pool pays for it in each of the three places that count bytes. */
module KvLayout {
  import opened Arith
  import opened Wrappers

  const COMPACT_BLOCK := 64

  /** A sliding-window layer's cache spec. */
  datatype Spec = Spec(blockSize: nat, bytesPerToken: nat, padded: Option<nat>) {
    predicate Valid() {
      blockSize > 0 && bytesPerToken > 0 && (padded.Some? ==> blockSize * bytesPerToken <= padded.value)
    }

    function Page(): (p: nat) {
      if padded.Some? then padded.value else blockSize * bytesPerToken
    }
  }

  /** The drafter's layers and their specs, in step. */
  datatype Group = Group(names: seq<string>, specs: seq<Spec>) {
    predicate Valid() {
      |names| == |specs| > 0 && forall i | 0 <= i < |specs| :: specs[i].Valid()
    }
  }

  // Grouping.

  /** The manager block whose page is exactly the MLA page, 0 when there is none. */
  function FitBlock(mlaPage: nat, bytesPerToken: nat): nat
    requires bytesPerToken > 0
  {
    if mlaPage % bytesPerToken == 0 then mlaPage / bytesPerToken else 0
  }

  predicate ExactFit(fit: nat, mlaBlock: nat, drafts: nat, mlas: nat)
    requires mlaBlock > 0
  {
    fit > 0 && fit % 64 == 0 && (fit % mlaBlock == 0 || mlaBlock % fit == 0) && drafts <= mlas
  }

  /** One drafter spec for the whole group: the exact fit, or a compact block padded to the MLA
      page. */
  function DraftSpec(s: Spec, mlaPage: nat, mlaBlock: nat, drafts: nat, mlas: nat): Spec
    requires s.bytesPerToken > 0 && mlaBlock > 0
  {
    var fit := FitBlock(mlaPage, s.bytesPerToken);
    if ExactFit(fit, mlaBlock, drafts, mlas) then s.(blockSize := fit)
    else s.(blockSize := COMPACT_BLOCK, padded := Some(mlaPage))
  }

  /** The drafter group as the grouping builds it from unpadded specs. Specs that differ fail an
      assertion, and so does a padded page too small for its block. */
  function BuildGroup(g: Group, mlaPage: nat, mlaBlock: nat, mlas: nat): (r: Result<Group>)
    requires g.Valid() && mlaBlock > 0
    ensures r.Ok? ==> r.value.names == g.names && |r.value.specs| == |g.specs|
  {
    if exists i | 0 <= i < |g.specs| :: g.specs[i] != g.specs[0] then Error("drafter layers must share one spec")
    else
      var s := DraftSpec(g.specs[0], mlaPage, mlaBlock, |g.names|, mlas);
      if !s.Valid() then Error("padded page is smaller than the real page")
      else Ok(Group(g.names, seq(|g.specs|, _ => s)))
  }

  /** What the layout demands of a drafter group before it accepts it. */
  predicate Accepts(g: Group, mlaPage: nat, mlas: nat)
    requires g.Valid()
  {
    && (forall i | 0 <= i < |g.specs| :: g.specs[i].Page() == g.specs[0].Page())
    && ((exists i | 0 <= i < |g.specs| :: g.specs[i].padded.Some?) ==>
          forall i | 0 <= i < |g.specs| ::
            g.specs[i].blockSize == COMPACT_BLOCK && g.specs[i].padded == Some(mlaPage))
    && (g.specs[0].Page() == mlaPage ==> |g.names| <= mlas)
  }

  lemma {:induction false} FitFillsPage(mlaPage: nat, bytesPerToken: nat)
    requires bytesPerToken > 0 && FitBlock(mlaPage, bytesPerToken) > 0
    ensures FitBlock(mlaPage, bytesPerToken) * bytesPerToken == mlaPage
  {
    assert mlaPage == bytesPerToken * (mlaPage / bytesPerToken);
  }

  lemma {:induction false} DraftSpecFillsPage(s: Spec, mlaPage: nat, mlaBlock: nat, drafts: nat, mlas: nat)
    requires s.bytesPerToken > 0 && s.padded.None? && mlaBlock > 0
    ensures DraftSpec(s, mlaPage, mlaBlock, drafts, mlas).Page() == mlaPage
  {
    if FitBlock(mlaPage, s.bytesPerToken) > 0 {
      FitFillsPage(mlaPage, s.bytesPerToken);
    }
    hide FitBlock;
  }

  /** Every group the grouping builds fills the MLA page, in either mode, and the layout accepts
      it exactly when there is an MLA tensor for each drafter layer. So a drafter the model
      serves with always rides the MLA tensors: standalone drafter tensors are never built. */
  lemma {:induction false} BuiltGroupRidesMla(g: Group, mlaPage: nat, mlaBlock: nat, mlas: nat)
    requires g.Valid() && mlaBlock > 0 && g.specs[0].padded.None? && BuildGroup(g, mlaPage, mlaBlock, mlas).Ok?
    ensures var built := BuildGroup(g, mlaPage, mlaBlock, mlas).value;
            && built.Valid()
            && (forall i | 0 <= i < |built.specs| :: built.specs[i].Page() == mlaPage)
            && (Accepts(built, mlaPage, mlas) <==> |g.names| <= mlas)
  {
    DraftSpecFillsPage(g.specs[0], mlaPage, mlaBlock, |g.names|, mlas);
    var s := DraftSpec(g.specs[0], mlaPage, mlaBlock, |g.names|, mlas);
    assert s.padded.Some? ==> s.blockSize == COMPACT_BLOCK && s.padded == Some(mlaPage);
    hide DraftSpec, Spec.Page, Spec.Valid;
  }

  /** Exact fit or padding: the grouping fails only where a compact block is larger than the MLA
      page. */
  lemma {:induction false} BuildFailsIff(g: Group, mlaPage: nat, mlaBlock: nat, mlas: nat)
    requires g.Valid() && mlaBlock > 0 && forall i | 0 <= i < |g.specs| :: g.specs[i] == g.specs[0]
    requires g.specs[0].padded.None?
    ensures var bpt := g.specs[0].bytesPerToken;
            BuildGroup(g, mlaPage, mlaBlock, mlas).Error? <==>
            !ExactFit(FitBlock(mlaPage, bpt), mlaBlock, |g.names|, mlas) && COMPACT_BLOCK * bpt > mlaPage
  {
    hide FitBlock;
  }

  /** Which block the built group gets. If the MLA page is a whole number of tokens, that number is
      a multiple of 64 and divides or is divided by the MLA block, and there are MLA layers enough,
      it is that number, unpadded; otherwise it is 64 tokens padded to the page, if they fit. */
  lemma {:induction false} BuiltBlock(g: Group, mlaPage: nat, mlaBlock: nat, mlas: nat)
    requires g.Valid() && mlaBlock > 0 && g.specs[0].padded.None?
    ensures var r, bpt := BuildGroup(g, mlaPage, mlaBlock, mlas), g.specs[0].bytesPerToken;
            var fit := mlaPage / bpt;
            var fits := mlaPage % bpt == 0 && fit > 0 && fit % 64 == 0
                        && (fit % mlaBlock == 0 || mlaBlock % fit == 0) && |g.names| <= mlas;
            && (r.Ok? <==> (forall i | 0 <= i < |g.specs| :: g.specs[i] == g.specs[0]) && (fits || 64 * bpt <= mlaPage))
            && (r.Ok? ==> forall i | 0 <= i < |g.specs| ::
                  r.value.specs[i] == if fits then Spec(fit, bpt, None) else Spec(64, bpt, Some(mlaPage)))
  {
    if FitBlock(mlaPage, g.specs[0].bytesPerToken) > 0 {
      FitFillsPage(mlaPage, g.specs[0].bytesPerToken);
    }
  }

  /** The layout in cases. Without padding the pages must agree, and where they are the MLA page
      there must be an MLA layer for each; with any padding all must be 64 tokens padded to that
      page, and again there must be an MLA layer for each. */
  lemma {:induction false} AcceptsIff(g: Group, mlaPage: nat, mlas: nat)
    requires g.Valid()
    ensures if forall i | 0 <= i < |g.specs| :: g.specs[i].padded.None? then
              var page := g.specs[0].blockSize * g.specs[0].bytesPerToken;
              Accepts(g, mlaPage, mlas) <==>
              && (forall i | 0 <= i < |g.specs| :: g.specs[i].blockSize * g.specs[i].bytesPerToken == page)
              && (page == mlaPage ==> |g.names| <= mlas)
            else
              Accepts(g, mlaPage, mlas) <==>
              && (forall i | 0 <= i < |g.specs| :: g.specs[i].blockSize == 64 && g.specs[i].padded == Some(mlaPage))
              && |g.names| <= mlas
  {
  }

  // Kernel blocks.

  /** Where a kernel block of `kernel` tokens starts in the contiguous view. */
  function KernelStart(index: nat, kernel: nat, bytesPerToken: nat): nat {
    index * (kernel * bytesPerToken)
  }

  /** With an exact fit, kernel block `j` of manager block `b` lies inside block `b`'s own page,
      for every kernel block size that divides 64. */
  lemma {:induction false} KernelBlockInOwnPage(fit: nat, bpt: nat, mlaPage: nat, kernel: nat, b: nat, j: nat)
    requires fit > 0 && fit % 64 == 0 && kernel > 0 && 64 % kernel == 0 && fit * bpt == mlaPage && j < fit / kernel
    ensures fit % kernel == 0
    ensures KernelStart(b * (fit / kernel) + j, kernel, bpt) == b * mlaPage + KernelStart(j, kernel, bpt)
    ensures KernelStart(j, kernel, bpt) + kernel * bpt <= mlaPage
  {
    var q := fit / kernel;
    DividesThrough(fit, kernel);
    var page := kernel * bpt;
    assert fit == q * kernel;
    assert fit * bpt == q * page by { assert q * kernel * bpt == q * (kernel * bpt); }
    assert (b * q + j) * page == b * (q * page) + j * page by { assert b * q * page == b * (q * page); }
    MulMonotone(j + 1, q, page);
    assert (j + 1) * page == j * page + page;
  }

  /** So every unpadded group that is built can be split by the backends: its block is a multiple of
      the kernel's, and kernel block `j` of manager block `b` starts `b` MLA pages and `j` kernel
      pages into the tensor and ends inside page `b`. */
  lemma {:induction false} BuiltBlockHoldsKernels(
    g: Group, mlaPage: nat, mlaBlock: nat, mlas: nat, kernel: nat, b: nat, j: nat)
    requires g.Valid() && mlaBlock > 0 && g.specs[0].padded.None? && kernel > 0 && 64 % kernel == 0
    requires BuildGroup(g, mlaPage, mlaBlock, mlas).Ok? && |BuildGroup(g, mlaPage, mlaBlock, mlas).value.specs| > 0
    requires BuildGroup(g, mlaPage, mlaBlock, mlas).value.specs[0].padded.None?
    ensures var block, page := BuildGroup(g, mlaPage, mlaBlock, mlas).value.specs[0].blockSize,
                               kernel * g.specs[0].bytesPerToken;
            && block % kernel == 0
            && (j < block / kernel ==>
                (b * (block / kernel) + j) * page == b * mlaPage + j * page && j * page + page <= mlaPage)
  {
    BuiltBlock(g, mlaPage, mlaBlock, mlas);
    var bpt := g.specs[0].bytesPerToken;
    var fit := mlaPage / bpt;
    assert fit * bpt == mlaPage by { assert mlaPage == bpt * (mlaPage / bpt) + mlaPage % bpt; }
    hide BuildGroup;
    DividesThrough(fit, kernel);
    if j < fit / kernel { KernelBlockInOwnPage(fit, bpt, mlaPage, kernel, b, j); }
  }

  lemma {:induction false} DividesThrough(fit: nat, kernel: nat)
    requires fit % 64 == 0 && kernel > 0 && 64 % kernel == 0
    ensures fit % kernel == 0 && fit == fit / kernel * kernel
  {
    var x, y := fit / 64, 64 / kernel;
    assert fit == x * 64 && 64 == y * kernel;
    assert x * (y * kernel) == x * y * kernel;
    DivUnique(fit, kernel, x * y, 0);
  }

  /** The scheduler's block size, the least common multiple of the two, is the larger of them. */
  lemma {:induction false} CommonBlockIsLarger(fit: nat, mlaBlock: nat, m: nat)
    requires fit > 0 && mlaBlock > 0 && (fit % mlaBlock == 0 || mlaBlock % fit == 0)
    ensures var larger := Max(fit, mlaBlock);
            && larger % fit == 0 && larger % mlaBlock == 0
            && (m > 0 && m % fit == 0 && m % mlaBlock == 0 ==> larger <= m)
  {
    DivUnique(fit, fit, 1, 0);
    DivUnique(mlaBlock, mlaBlock, 1, 0);
    MultipleIsLarger(fit, mlaBlock);
    MultipleIsLarger(mlaBlock, fit);
    MultipleIsLarger(m, fit);
    MultipleIsLarger(m, mlaBlock);
  }

  lemma {:induction false} MultipleIsLarger(m: nat, a: nat)
    requires a > 0
    ensures m > 0 && m % a == 0 ==> a <= m
  {
    if m > 0 && m % a == 0 {
      assert m == a * (m / a);
      MulSign(a, m / a);
    }
  }

  // Tensors.

  datatype Tensor = Tensor(size: nat, sharedBy: seq<string>)

  datatype Layout = Layout(
    mla: seq<string>, idx: seq<string>, tail: seq<string>, mamba: seq<seq<string>>,
    mlaPage: nat, idxPage: nat, draft: Option<Group>)
  {
    predicate Valid() {
      && |mla| > 0 && mlaPage > 0
      && (tail != [] ==> |tail| == |idx|)
      && (draft.Some? ==> draft.value.Valid() && Accepts(draft.value, mlaPage, |mla|))
    }
  }

  function DraftNames(l: Layout): seq<string> {
    if l.draft.Some? then l.draft.value.names else []
  }

  function DraftPage(l: Layout): nat
    requires l.Valid()
  {
    if l.draft.Some? then l.draft.value.specs[0].Page() else 0
  }

  predicate Shared(l: Layout)
    requires l.Valid()
  {
    l.draft.Some? && DraftPage(l) == l.mlaPage
  }

  /** The layers that get tensors of their own. */
  function Standalone(l: Layout): seq<string>
    requires l.Valid()
  {
    if Shared(l) then [] else DraftNames(l)
  }

  /** The mamba layers that ride tensor `i`. */
  function MambaAt(groups: seq<seq<string>>, i: nat): seq<string> {
    if groups == [] then []
    else
      var rest := MambaAt(groups[1..], i);
      if i < |groups[0]| then [groups[0][i]] + rest else rest
  }

  function MlaTensor(l: Layout, blocks: nat, i: nat): Tensor
    requires l.Valid() && i < |l.mla|
  {
    Tensor(l.mlaPage * blocks,
           [l.mla[i]] + MambaAt(l.mamba, i) + if Shared(l) && i < |DraftNames(l)| then [DraftNames(l)[i]] else [])
  }

  function IdxTensor(l: Layout, blocks: nat, i: nat): Tensor
    requires l.Valid() && i < |l.idx|
  {
    Tensor(l.idxPage * blocks, if l.tail != [] then [l.idx[i], l.tail[i]] else [l.idx[i]])
  }

  function DraftTensor(l: Layout, blocks: nat, i: nat): Tensor
    requires l.Valid() && i < |Standalone(l)|
  {
    Tensor(DraftPage(l) * blocks, [Standalone(l)[i]])
  }

  function Tensors(l: Layout, blocks: nat): (ts: seq<Tensor>)
    requires l.Valid()
    ensures |ts| == |l.mla| + |l.idx| + |Standalone(l)|
  {
    seq(|l.mla|, i requires 0 <= i < |l.mla| => MlaTensor(l, blocks, i))
    + seq(|l.idx|, i requires 0 <= i < |l.idx| => IdxTensor(l, blocks, i))
    + seq(|Standalone(l)|, i requires 0 <= i < |Standalone(l)| => DraftTensor(l, blocks, i))
  }

  lemma {:induction false} TensorAt(l: Layout, blocks: nat, j: nat)
    requires l.Valid() && j < |l.mla| + |l.idx| + |Standalone(l)|
    ensures Tensors(l, blocks)[j] == if j < |l.mla| then MlaTensor(l, blocks, j)
                                     else if j < |l.mla| + |l.idx| then IdxTensor(l, blocks, j - |l.mla|)
                                     else DraftTensor(l, blocks, j - |l.mla| - |l.idx|)
  {
    hide MlaTensor, IdxTensor, DraftTensor, Standalone, Layout.Valid;
  }

  function Total(ts: seq<Tensor>, n: nat): nat
    requires n <= |ts|
  {
    if n == 0 then 0 else Total(ts, n - 1) + ts[n - 1].size
  }

  lemma {:induction false} TotalOfRun(ts: seq<Tensor>, lo: nat, n: nat, page: nat, blocks: nat)
    requires lo + n <= |ts| && forall i | lo <= i < lo + n :: ts[i].size == page * blocks
    ensures Total(ts, lo + n) == Total(ts, lo) + n * (page * blocks)
    decreases n
  {
    if n == 0 {
    } else {
      TotalOfRun(ts, lo, n - 1, page, blocks);
      assert ts[lo + n - 1].size == page * blocks;
      NextMultiple(n, page * blocks);
    }
  }

  lemma {:induction false} NextMultiple(n: nat, s: nat)
    requires n > 0
    ensures (n - 1) * s + s == n * s
  {
  }

  /** What one block of the pool costs. */
  function PerBlock(l: Layout): nat
    requires l.Valid()
  {
    |l.mla| * l.mlaPage + |l.idx| * l.idxPage + |Standalone(l)| * DraftPage(l)
  }

  lemma {:induction false} TensorSizes(l: Layout, blocks: nat)
    requires l.Valid()
    ensures var ts, m, x := Tensors(l, blocks), |l.mla|, |l.idx|;
            && (forall i | 0 <= i < m :: ts[i].size == l.mlaPage * blocks)
            && (forall i | m <= i < m + x :: ts[i].size == l.idxPage * blocks)
            && (forall i | m + x <= i < |ts| :: ts[i].size == DraftPage(l) * blocks)
  {
    var ts := Tensors(l, blocks);
    forall j | 0 <= j < |ts| ensures ts[j].size == SizeAt(l, blocks, j) {
      TensorAt(l, blocks, j);
      hide Tensors, Standalone, DraftPage, MambaAt, Shared, Layout.Valid;
    }
    hide Tensors, Standalone, DraftPage, Layout.Valid;
  }

  function SizeAt(l: Layout, blocks: nat, j: nat): nat
    requires l.Valid()
  {
    if j < |l.mla| then l.mlaPage * blocks
    else if j < |l.mla| + |l.idx| then l.idxPage * blocks
    else DraftPage(l) * blocks
  }

  /** The tensors are worth exactly the blocks: nothing is paid twice and nothing is missing. */
  lemma {:induction false} TensorsAreBlocks(l: Layout, blocks: nat)
    requires l.Valid()
    ensures var ts := Tensors(l, blocks); Total(ts, |ts|) == blocks * PerBlock(l)
  {
    var ts := Tensors(l, blocks);
    var m, x, d := |l.mla|, |l.idx|, |Standalone(l)|;
    TensorSizes(l, blocks);
    ThreeRuns(ts, m, l.mlaPage, x, l.idxPage, d, DraftPage(l), blocks);
    hide Tensors, Standalone, DraftPage, Total, Layout.Valid;
    ThreeProducts(m, l.mlaPage, x, l.idxPage, d, DraftPage(l), blocks);
  }

  lemma {:induction false} ThreeRuns(ts: seq<Tensor>, a: nat, p: nat, b: nat, q: nat, c: nat, r: nat, n: nat)
    requires |ts| == a + b + c
    requires forall i | 0 <= i < a :: ts[i].size == p * n
    requires forall i | a <= i < a + b :: ts[i].size == q * n
    requires forall i | a + b <= i < a + b + c :: ts[i].size == r * n
    ensures Total(ts, |ts|) == a * (p * n) + b * (q * n) + c * (r * n)
  {
    TotalOfRun(ts, 0, a, p, n);
    TotalOfRun(ts, a, b, q, n);
    TotalOfRun(ts, a + b, c, r, n);
  }

  lemma {:induction false} ThreeProducts(a: nat, p: nat, b: nat, q: nat, c: nat, r: nat, n: nat)
    ensures a * (p * n) + b * (q * n) + c * (r * n) == n * (a * p + b * q + c * r)
  {
    assert a * (p * n) == n * (a * p);
    assert b * (q * n) == n * (b * q);
    assert c * (r * n) == n * (c * r);
    assert n * (a * p + b * q + c * r) == n * (a * p) + n * (b * q) + n * (c * r);
  }

  /** No drafter layer shares its name with another layer. */
  ghost predicate DistinctDrafts(l: Layout) {
    var names := DraftNames(l);
    && (forall i, j | 0 <= i < j < |names| :: names[i] != names[j])
    && forall x | x in names ::
         x !in l.mla && x !in l.idx && x !in l.tail && forall g | g in l.mamba :: x !in g
  }

  /** Every drafter layer is owned by exactly one tensor, its MLA tensor when it shares. */
  lemma {:induction false} DraftOwnedOnce(l: Layout, blocks: nat, k: nat, j: nat)
    requires l.Valid() && DistinctDrafts(l) && k < |DraftNames(l)|
    ensures var ts := Tensors(l, blocks);
            j < |ts| ==> (DraftNames(l)[k] in ts[j].sharedBy <==>
                          j == if Shared(l) then k else |l.mla| + |l.idx| + k)
    ensures (if Shared(l) then k else |l.mla| + |l.idx| + k) < |Tensors(l, blocks)|
  {
    var x := DraftNames(l)[k];
    assert x in DraftNames(l);
    if j < |Tensors(l, blocks)| {
      TensorAt(l, blocks, j);
      hide Tensors, DraftPage, Layout.Valid, MambaAt;
      if j < |l.mla| {
        NotMamba(l.mamba, x, j);
      } else if j < |l.mla| + |l.idx| {
        assert x != l.idx[j - |l.mla|];
        assert l.tail != [] ==> |l.tail| == |l.idx| by { TailMatches(l); }
        assert l.tail != [] ==> x != l.tail[j - |l.mla|];
      }
    }
  }

  /** Who owns each tensor. MLA tensor `i` is held by MLA layer `i`, by the layer `i` of every mamba
      group that has one, and by drafter layer `i` when the drafter's page is the MLA page. */
  lemma {:induction false} MlaTensorOwners(l: Layout, blocks: nat, i: nat, x: string)
    requires l.Valid() && i < |l.mla|
    ensures i < |Tensors(l, blocks)| && Tensors(l, blocks)[i].size == l.mlaPage * blocks
    ensures x in Tensors(l, blocks)[i].sharedBy <==>
            || x == l.mla[i] || (exists g | g in l.mamba :: i < |g| && g[i] == x)
            || (l.draft.Some? && l.draft.value.specs[0].Page() == l.mlaPage
                && i < |l.draft.value.names| && x == l.draft.value.names[i])
  {
    TensorAt(l, blocks, i);
    MambaLayers(l.mamba, i, x);
    hide Tensors, MambaAt;
  }

  /** Index tensor `i` is held by index layer `i` and its tail; behind these come the tensors of a
      drafter whose page is another, one for each of its layers, and no more. */
  lemma {:induction false} OtherTensorOwners(l: Layout, blocks: nat)
    requires l.Valid()
    ensures var ts, m, x := Tensors(l, blocks), |l.mla|, |l.idx|;
            var own := if l.draft.Some? && l.draft.value.specs[0].Page() != l.mlaPage then l.draft.value.names else [];
            && |ts| == m + x + |own|
            && (forall i | m <= i < m + x ::
                  ts[i] == Tensor(l.idxPage * blocks,
                                  if l.tail != [] then [l.idx[i - m], l.tail[i - m]] else [l.idx[i - m]]))
            && (forall i | m + x <= i < |ts| ::
                  l.draft.Some? && ts[i] == Tensor(l.draft.value.specs[0].Page() * blocks, [own[i - m - x]]))
  {
    forall j | 0 <= j < |Tensors(l, blocks)| { TensorAt(l, blocks, j); }
    hide Tensors, Spec.Page;
  }

  lemma {:induction false} MambaLayers(groups: seq<seq<string>>, i: nat, x: string)
    ensures x in MambaAt(groups, i) <==> exists g | g in groups :: i < |g| && g[i] == x
    decreases |groups|
  {
    if groups == [] {
    } else {
      MambaLayers(groups[1..], i, x);
      assert groups == [groups[0]] + groups[1..];
    }
  }

  /** An accepted drafter layer has, in the one tensor it is in, room for as many of its own pages as
      the pool has blocks. */
  lemma {:induction false} DraftHasItsPages(l: Layout, blocks: nat, k: nat)
    requires l.Valid() && k < |DraftNames(l)|
    ensures l.draft.Some? && k < |l.draft.value.specs|
    ensures var j := if Shared(l) then k else |l.mla| + |l.idx| + k;
            j < |Tensors(l, blocks)| && Tensors(l, blocks)[j].size == l.draft.value.specs[k].Page() * blocks
  {
    TensorSizes(l, blocks);
    hide Tensors, Spec.Page;
  }

  lemma {:induction false} TailMatches(l: Layout)
    requires l.Valid()
    ensures l.tail != [] ==> |l.tail| == |l.idx|
  {
  }

  lemma {:induction false} NotMamba(groups: seq<seq<string>>, x: string, i: nat)
    requires forall g | g in groups :: x !in g
    ensures x !in MambaAt(groups, i)
    decreases |groups|
  {
    if groups == [] {
    } else {
      NotMamba(groups[1..], x, i);
      assert groups[0] in groups;
    }
  }

  // The three places that count.

  lemma {:induction false} PerBlockPositive(l: Layout)
    requires l.Valid()
    ensures PerBlock(l) > 0
  {
    MulSign(|l.mla|, l.mlaPage);
    hide Standalone, DraftPage;
  }

  /** `_pool_bytes_per_block`. */
  method PoolBytesPerBlock(l: Layout) returns (perBlock: nat)
    requires l.Valid()
    ensures perBlock == PerBlock(l)
  {
    perBlock := |l.mla| * l.mlaPage + |l.idx| * l.idxPage;
    if l.draft.Some? {
      var draftPage := l.draft.value.specs[0].Page();
      if draftPage != l.mlaPage {
        perBlock := perBlock + |l.draft.value.names| * draftPage;
      }
    }
  }

  /** The pool as it is configured: as many blocks as fit, one tensor list for all of them, and
      never more bytes than there are. */
  method Configure(l: Layout, available: nat) returns (blocks: nat, tensors: seq<Tensor>)
    requires l.Valid()
    ensures tensors == Tensors(l, blocks)
    ensures Total(tensors, |tensors|) == blocks * PerBlock(l)
    ensures blocks * PerBlock(l) <= available < blocks * PerBlock(l) + PerBlock(l)
  {
    var draftNames: seq<string>, draftPage: nat, draftShared := [], 0, false;
    if l.draft.Some? {
      draftNames := l.draft.value.names;
      draftPage := l.draft.value.specs[0].Page();
      draftShared := draftPage == l.mlaPage;
    }
    var perBlock := |l.mla| * l.mlaPage + |l.idx| * l.idxPage;
    if draftNames != [] && !draftShared {
      perBlock := perBlock + |draftNames| * draftPage;
    }
    assert perBlock == PerBlock(l);
    PerBlockPositive(l);
    hide PerBlock, Tensors, Total;
    blocks := available / perBlock;
    Quotient(available, perBlock);
    tensors := Tensors(l, blocks);
    TensorsAreBlocks(l, blocks);
  }

  /** `_max_memory_usage_bytes_from_groups`: the block demand, one more block for a tail and the
      drafter's own, at the same cost per block. */
  method MaxMemoryUsage(l: Layout, baseBlocks: nat, draftBlocks: nat) returns (bytes: nat)
    requires l.Valid()
    ensures var blocks := baseBlocks + (if l.tail != [] then 1 else 0) + if l.draft.Some? then draftBlocks else 0;
            bytes == blocks * PerBlock(l)
  {
    var blocksNeeded := baseBlocks;
    if l.tail != [] {
      blocksNeeded := blocksNeeded + 1;
    }
    var perBlock := |l.mla| * l.mlaPage + |l.idx| * l.idxPage;
    if l.draft.Some? {
      blocksNeeded := blocksNeeded + draftBlocks;
      var draftPage := l.draft.value.specs[0].Page();
      if draftPage != l.mlaPage {
        perBlock := perBlock + |l.draft.value.names| * draftPage;
      }
    }
    assert perBlock == PerBlock(l);
    return blocksNeeded * perBlock;
  }

  /** A drafter the grouping built and the layout accepted costs the pool nothing. */
  lemma {:induction false} BuiltDraftIsFree(l: Layout, g: Group, mlaBlock: nat)
    requires l.Valid() && l.draft.Some? && g.Valid() && mlaBlock > 0 && g.specs[0].padded.None?
    requires BuildGroup(g, l.mlaPage, mlaBlock, |l.mla|) == Ok(l.draft.value)
    ensures Shared(l) && PerBlock(l) == PerBlock(l.(draft := None))
  {
    BuiltGroupRidesMla(g, l.mlaPage, mlaBlock, |l.mla|);
    hide BuildGroup;
    assert l.draft.value.specs[0].Page() == l.mlaPage;
    assert Standalone(l) == [] && Standalone(l.(draft := None)) == [];
  }
}
