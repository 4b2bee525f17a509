/** What the adaptive-length policy guarantees over whole runs. */
module AdaptiveKRuns {
  import opened AdaptiveK
  import opened Wrappers
  import opened Arith
  import opened Totals

  // CUDA-graph lengths.

  /** One graph length per candidate that fits the native decode length. */
  function ExtraLens(kSet: seq<int>, decodeQueryLen: int): (r: set<int>)
    ensures forall n :: n in r <==> n - 1 in kSet && 0 < n <= decodeQueryLen
  {
    if kSet == [] then {}
    else
      assert kSet == [kSet[0]] + kSet[1..];
      ExtraLens(kSet[1..], decodeQueryLen) +
      if 0 < kSet[0] + 1 <= decodeQueryLen then {kSet[0] + 1} else {}
  }

  /** `_glm53_adaptive_k_query_lens`: the uniform decode lengths captured at boot. */
  function QueryLens(lens: set<int>, decodeQueryLen: int, graphs: bool, kSet: seq<int>): (r: set<int>)
    ensures graphs ==> forall n :: n in r <==>
      n in lens || n == decodeQueryLen || (n - 1 in kSet && 0 < n <= decodeQueryLen)
    ensures !graphs ==> r == lens
  {
    if !graphs then lens else lens + ExtraLens(kSet, decodeQueryLen) + {decodeQueryLen}
  }

  // Runs.

  datatype Event =
    | Observed(id: ReqId, drafts: int, accepted: int)
    | Updated(rows: seq<Row>, live: set<ReqId>, file: File)

  function Step(p: Policy, boot: Boot, e: Event): (r: Policy)
    requires Sound(p, boot)
    ensures Sound(r, boot)
  {
    match e
    case Observed(id, drafts, accepted) => Observe(p, boot, id, drafts, accepted)
    case Updated(rows, live, file) =>
      UpdateKeepsSound(p, boot, rows, live, file);
      UpdateDrafts(p, boot, rows, live, file)
  }

  function Run(p: Policy, boot: Boot, events: seq<Event>): (r: Policy)
    requires Sound(p, boot)
    ensures Sound(r, boot)
  {
    if events == [] then p else Step(Run(p, boot, events[..|events| - 1]), boot, events[|events| - 1])
  }

  lemma {:induction false} RunNext(p: Policy, boot: Boot, events: seq<Event>, e: Event)
    requires Sound(p, boot)
    ensures Run(p, boot, []) == p && Run(p, boot, events + [e]) == Step(Run(p, boot, events), boot, e)
  {
    assert (events + [e])[..|events|] == events;
    hide Step, Sound;
  }

  /** The hooks around a policy that is off do nothing at all: no reload, no count, no average. So
      once an override file turns the mode off, no later file and no other event changes
      anything. */
  lemma {:induction false} OffIsForGood(p: Policy, boot: Boot, events: seq<Event>)
    requires Sound(p, boot) && !p.enabled
    ensures Run(p, boot, events) == p
    decreases |events|
  {
    hide Sound, Apply, Opened;
    if events == [] {
    } else {
      OffIsForGood(p, boot, events[..|events| - 1]);
    }
  }

  /** A file with the mode off, seen by a running policy's next check, is such an end. */
  lemma {:induction false} OverrideTurnsOff(p: Policy, boot: Boot, rows: seq<Row>, live: set<ReqId>, f: File, i: nat)
    requires Sound(p, boot) && p.enabled && p.steps % 50 == 0 && i < |rows| && rows[i].drafts > 0
    requires f.Present? && Some(f.mtime) != p.fileMtime && f.content.Override? && !f.content.emaMode
    ensures !Step(p, boot, Updated(rows, live, f)).enabled
  {
    assert rows[i] in Gated(p, rows);
    FileTurnsOff(p, boot, f);
    hide Opened, Width, Gated, CountStep;
  }

  lemma {:induction false} FileTurnsOff(p: Policy, boot: Boot, f: File)
    requires Sound(p, boot) && p.enabled && p.steps % 50 == 0
    requires f.Present? && Some(f.mtime) != p.fileMtime && f.content.Override? && !f.content.emaMode
    ensures !Opened(p, boot, f).enabled
  {
    hide TakeNumbers, Allowed;
  }

  /** A batch without structured requests, every row carrying `k` drafts. */
  ghost predicate FullBatch(rows: seq<Row>, k: nat) {
    rows != [] && forall i | 0 <= i < |rows| :: !rows[i].structured && rows[i].drafts == k
  }

  predicate Trimming(boot: Boot) {
    boot.posTrim && boot.batchMargin
  }

  /** What the boot candidate list must look like: all positive, or else length 1 is captured
      anyway and the clamp to the smallest candidate cannot go below zero. */
  ghost predicate Safe(boot: Boot, k: nat) {
    || (forall v | v in boot.kSet :: v >= 1)
    || ((1 in boot.kSet || k == 1) && (Trimming(boot) ==> forall v | v in boot.kSet :: v >= 0))
  }

  lemma {:induction false} PickedWidth(p: Policy, rows: seq<Row>, k: nat) returns (i: nat)
    requires p.kSet != [] && FullBatch(rows, k) && Known(Picks(p, rows)) != []
    ensures i < |rows| && Choose(p, rows[i].id, k, false) == Some(MinOf(Known(Picks(p, rows))))
  {
    var picks := Picks(p, rows);
    var n := MinOf(Known(picks));
    assert Some(n) in picks;
    i :| 0 <= i < |picks| && picks[i] == Some(n);
  }

  /** Every width the policy can pick for a full batch. */
  lemma {:induction false} WidthForms(p: Policy, boot: Boot, rows: seq<Row>, k: nat)
    requires p.kSet != [] && FullBatch(rows, k)
    ensures var w := Width(p, boot, rows);
            || w == k
            || (1 <= w <= k && w in p.kSet)
            || (1 == w <= k && MinOf(p.kSet) <= 0)
            || (Trimming(boot) && w == MinOf(p.kSet) < k)
  {
    hide Known, Choose, MaxOf, MinOf, Picks;
    var picks := Picks(p, rows);
    if Known(picks) != [] {
      var i := PickedWidth(p, rows, k);
      assert Choose(p, rows[i].id, k, false).Some?;
    }
    if !AllKnown(picks) && MarginWidth(boot, rows, picks).None? {
      assert MaxOf(Drafts(rows)) in Drafts(rows);
    }
  }

  lemma {:induction false} SafeWidthIsCaptured(p: Policy, boot: Boot, lens: set<int>, rows: seq<Row>, k: nat)
    requires Sound(p, boot) && boot.enabled && FullBatch(rows, k) && k >= 1 && Safe(boot, k)
    ensures Width(p, boot, rows) + 1 in QueryLens(lens, k + 1, boot.enabled, boot.kSet)
  {
    hide Width, QueryLens, MinOf;
    WidthForms(p, boot, rows, k);
    assert MinOf(p.kSet) in p.kSet;
  }

  /** Whatever happened before, the width of a full batch has a captured graph. */
  ghost predicate AlwaysCaptured(p: Policy, boot: Boot, lens: set<int>, k: nat)
    requires Sound(p, boot)
  {
    forall events: seq<Event>, rows: seq<Row>, f: File |
      FullBatch(rows, k) && Run(p, boot, events).enabled && Opened(Run(p, boot, events), boot, f).enabled ::
      && Opened(Run(p, boot, events), boot, f).kSet != []
      && Width(Opened(Run(p, boot, events), boot, f), boot, rows) + 1 in QueryLens(lens, k + 1, boot.enabled, boot.kSet)
  }

  lemma {:induction false} SafeAlwaysCaptured(p: Policy, boot: Boot, lens: set<int>, k: nat)
    requires Sound(p, boot) && k >= 1 && Safe(boot, k)
    ensures AlwaysCaptured(p, boot, lens, k)
  {
    hide Width, QueryLens, Safe, Sound;
    forall events: seq<Event>, rows: seq<Row>, f: File |
      FullBatch(rows, k) && Run(p, boot, events).enabled && Opened(Run(p, boot, events), boot, f).enabled
      ensures Opened(Run(p, boot, events), boot, f).kSet != []
      ensures var w := Width(Opened(Run(p, boot, events), boot, f), boot, rows);
              w + 1 in QueryLens(lens, k + 1, boot.enabled, boot.kSet)
    {
      var q := Opened(Run(p, boot, events), boot, f);
      ApplyKeepsSound(Run(p, boot, events), boot, rows, {}, f);
      SoundMeans(q, boot);
      SafeWidthIsCaptured(q, boot, lens, rows, k);
    }
  }

  // The run that escapes when the list is not safe.

  /** An override file that leaves the single candidate `v` and no warm-up. */
  function NarrowFile(v: int): File {
    Present(0, Override(true, Absent, Absent, Value(0), None, Value({v})))
  }

  function PlainRow(id: ReqId, k: nat): Row {
    Row(id, k, false)
  }

  function NarrowRun(v: int, k: nat): seq<Event> {
    [Updated([PlainRow("a", k)], {"a", "b"}, NarrowFile(v)), Observed("a", k, 0), Observed("b", k, 0)]
  }

  lemma {:induction false} NarrowReload(boot: Boot, alpha: real, margin: real, minSteps: int, saturateMax: bool, v: int)
    requires boot.enabled && v in boot.kSet
    ensures var p := Opened(Booted(boot, alpha, margin, minSteps, saturateMax), boot, NarrowFile(v));
            && p.enabled && p.minSteps == 0 && p.state == map[] && p.steps == 0
            && p.kSet != [] && forall x | x in p.kSet :: x == v
  {
    assert v in Keep(boot.kSet, {v});
  }

  /** After that run both requests are observed and only `v` is left to choose from. */
  lemma {:induction false} NarrowRunEnds(boot: Boot, p: Policy, v: int, k: nat)
    requires Sound(p, boot) && p.enabled && k >= 1 && p.steps == 0
    requires var q := Opened(p, boot, NarrowFile(v));
             && q.enabled && q.minSteps == 0 && q.state == map[] && q.steps == 0
             && q.kSet != [] && forall x | x in q.kSet :: x == v
    ensures var r := Run(p, boot, NarrowRun(v, k));
            && r.enabled && r.minSteps == 0 && r.steps == 1
            && "a" in r.state && "b" in r.state && r.state["a"].steps == 1 && r.state["b"].steps == 1
            && r.kSet != [] && forall x | x in r.kSet :: x == v
  {
    hide Width, Opened, Sound;
    var e := NarrowRun(v, k);
    var p1 := Step(p, boot, e[0]);
    assert p1.steps == 1 && p1.state == map[];
    var p2 := Step(p1, boot, e[1]);
    var p3 := Step(p2, boot, e[2]);
    assert e[..1] == [e[0]] && e[..2] == [e[0], e[1]] && e[..3] == e;
    assert e[..1][..0] == [] && e[..2][..1] == e[..1] && e[..3][..2] == e[..2];
    assert Run(p, boot, []) == p;
    assert Run(p, boot, e[..1]) == p1;
    assert Run(p, boot, e[..2]) == p2;
    assert Run(p, boot, e[..3]) == p3;
  }

  lemma {:induction false} NarrowChoice(p: Policy, id: ReqId, k: nat, v: int)
    requires p.enabled && p.minSteps == 0 && id in p.state && k >= 1 && v <= 0
    requires p.kSet != [] && forall x | x in p.kSet :: x == v
    ensures Choose(p, id, k, false) == Some(1)
  {
    hide MaxOf, MinOf, AtMost;
  }

  lemma {:induction false} NarrowWidths(p: Policy, boot: Boot, k: nat, v: int)
    requires p.enabled && p.minSteps == 0 && "a" in p.state && "b" in p.state && k >= 1 && v <= 0
    requires p.kSet != [] && forall x | x in p.kSet :: x == v
    ensures Width(p, boot, [PlainRow("a", k)]) == 1
    ensures Trimming(boot) ==> Width(p, boot, [PlainRow("a", k), PlainRow("b", k)]) == v
  {
    hide MaxOf, MinOf, Choose, Known;
    var one, two := [PlainRow("a", k)], [PlainRow("a", k), PlainRow("b", k)];
    NarrowChoice(p, "a", k, v);
    NarrowChoice(p, "b", k, v);
    assert Picks(p, one) == [Some(1)];
    assert Picks(p, two) == [Some(1), Some(1)];
    assert MinOf(Known(Picks(p, one))) == 1 && MinOf(Known(Picks(p, two))) == 1;
    assert MinOf(p.kSet) == v;
    assert PosWidth(p, boot, one, Picks(p, one), 1) == None;
  }

  /** The width is captured on every run exactly when the boot list is safe. */
  lemma {:induction false} CapturedIffSafe(
    boot: Boot, alpha: real, margin: real, minSteps: int, saturateMax: bool, k: nat)
    requires boot.kSet != [] && boot.enabled && k >= 1
    ensures Sound(Booted(boot, alpha, margin, minSteps, saturateMax), boot)
    ensures AlwaysCaptured(Booted(boot, alpha, margin, minSteps, saturateMax), boot, {k + 1}, k) <==> Safe(boot, k)
  {
    var p := Booted(boot, alpha, margin, minSteps, saturateMax);
    OwnList(boot);
    if Safe(boot, k) {
      SafeAlwaysCaptured(p, boot, {k + 1}, k);
    } else {
      UnsafeEscapes(p, boot, alpha, margin, minSteps, saturateMax, k);
    }
  }

  lemma {:induction false} UnsafeEscapes(
    p: Policy, boot: Boot, alpha: real, margin: real, minSteps: int, saturateMax: bool, k: nat)
    requires boot.kSet != [] && boot.enabled && k >= 1 && !Safe(boot, k)
    requires p == Booted(boot, alpha, margin, minSteps, saturateMax) && Sound(p, boot)
    ensures !AlwaysCaptured(p, boot, {k + 1}, k)
  {
    hide Width, Run, QueryLens, Sound;
    var v := UnsafeCandidate(boot, k);
    hide Safe;
    NarrowReload(boot, alpha, margin, minSteps, saturateMax, v);
    NarrowRunEnds(boot, p, v, k);
    var events := NarrowRun(v, k);
    var r := Run(p, boot, events);
    assert Opened(r, boot, Missing) == r;
    hide Opened, Booted, NarrowRun;
    NarrowWidths(r, boot, k, v);
    OneOfTwoEscapes(boot, r, v, k);
    var rows := if 1 !in boot.kSet && k != 1 then [PlainRow("a", k)] else [PlainRow("a", k), PlainRow("b", k)];
    assert FullBatch(rows, k);
  }

  lemma {:induction false} UnsafeCandidate(boot: Boot, k: nat) returns (v: int)
    requires boot.kSet != [] && !Safe(boot, k)
    ensures v in boot.kSet && v <= 0 && ((1 !in boot.kSet && k != 1) || (Trimming(boot) && v < 0))
  {
    v :| v in boot.kSet && v <= 0 && ((1 !in boot.kSet && k != 1) || (Trimming(boot) && v < 0));
  }

  lemma {:induction false} OneOfTwoEscapes(boot: Boot, r: Policy, v: int, k: nat)
    requires r.kSet != [] && k >= 1 && boot.enabled && v <= 0
    requires (1 !in boot.kSet && k != 1) || (Trimming(boot) && v < 0)
    requires Width(r, boot, [PlainRow("a", k)]) == 1
    requires Trimming(boot) ==> Width(r, boot, [PlainRow("a", k), PlainRow("b", k)]) == v
    ensures var rows := if 1 !in boot.kSet && k != 1 then [PlainRow("a", k)] else [PlainRow("a", k), PlainRow("b", k)];
            Width(r, boot, rows) + 1 !in QueryLens({k + 1}, k + 1, boot.enabled, boot.kSet)
  {
    hide Width, QueryLens;
  }

  /** A concrete unsafe list: 0, 4 and 7 for seven drafts. */
  lemma {:induction false} ZeroCandidateIsUnsafe()
    ensures !Safe(Boot(true, [0, 4, 7], false, false, 0), 7)
    ensures Safe(Boot(true, [2, 4, 7], true, true, 0), 7)
  {
    var b := Boot(true, [0, 4, 7], false, false, 0);
    assert 0 in b.kSet && !(0 >= 1);
  }

  // Trimming.

  lemma {:induction false} TrimmedIsPrefix(spec: seq<Token>, n: int)
    ensures Trimmed(spec, n) <= spec
    ensures |Trimmed(spec, n)| == if n >= 0 then Min(n, |spec|) else Max(0, |spec| + n)
  {
  }

  /** A batch with a structured request keeps all its drafts, whatever the knobs. */
  lemma {:induction false} StructuredBatchUntouched(p: Policy, boot: Boot, rows: seq<Row>, i: nat, j: nat)
    requires p.kSet != [] && i < |rows| && j < |rows| && rows[j].structured
    ensures Width(p, boot, rows) >= rows[i].drafts
    ensures forall spec: seq<Token> :: |spec| == rows[i].drafts ==> Trimmed(spec, Width(p, boot, rows)) == spec
  {
    assert Picks(p, rows)[j].None?;
    assert Drafts(rows)[i] in Drafts(rows);
  }

  /** When every request has a choice, the width is the least of the choices. With both knobs on
      and two requests or more it is the smallest candidate if that is less, of either sign. */
  lemma {:induction false} ObservedBatchWidth(p: Policy, boot: Boot, rows: seq<Row>) returns (least: int, floor: int)
    requires p.kSet != [] && rows != []
    requires forall r | r in rows :: Choose(p, r.id, r.drafts, r.structured).Some?
    ensures exists r :: r in rows && Choose(p, r.id, r.drafts, r.structured) == Some(least)
    ensures forall r | r in rows :: least <= Choose(p, r.id, r.drafts, r.structured).value
    ensures floor in p.kSet && forall v | v in p.kSet :: floor <= v
    ensures Width(p, boot, rows) ==
            if boot.posTrim && boot.batchMargin && |rows| >= 2 && floor < least then floor else least
  {
    hide Choose, MaxOf, Known;
    var picks := Picks(p, rows);
    forall i | 0 <= i < |rows| ensures picks[i].Some? && picks[i].value in Known(picks) && !rows[i].structured {
      assert rows[i] in rows;
      assert picks[i] == Some(picks[i].value);
      assert Some(picks[i].value) in picks;
    }
    least, floor := MinOf(Known(picks)), MinOf(p.kSet);
    var i :| 0 <= i < |picks| && picks[i] == Some(least);
    assert rows[i] in rows;
    forall r | r in rows ensures least <= Choose(p, r.id, r.drafts, r.structured).value {
      var j :| 0 <= j < |rows| && rows[j] == r;
      assert picks[j].value in Known(picks);
    }
  }

  /** Then every row ends with exactly that width, which is below one only if the clamp takes a
      smallest candidate below one. */
  lemma {:induction false} ObservedBatchIsUniform(p: Policy, boot: Boot, rows: seq<Row>, i: nat, spec: seq<Token>)
    requires p.kSet != [] && i < |rows| && |spec| == rows[i].drafts
    requires forall r | r in rows :: Choose(p, r.id, r.drafts, r.structured).Some?
    ensures var w := Width(p, boot, rows);
            && w <= rows[i].drafts
            && (w >= 0 ==> |Trimmed(spec, w)| == w)
            && (w < 1 <==> boot.posTrim && boot.batchMargin && |rows| >= 2 && exists v :: v in p.kSet && v < 1)
  {
    var least, floor := ObservedBatchWidth(p, boot, rows);
    assert rows[i] in rows;
    ChoicesInRange(p, rows);
    hide Width, Choose;
    TrimmedIsPrefix(spec, Width(p, boot, rows));
  }

  lemma {:induction false} ChoicesInRange(p: Policy, rows: seq<Row>)
    requires p.kSet != [] && forall r | r in rows :: Choose(p, r.id, r.drafts, r.structured).Some?
    ensures forall r | r in rows :: 1 <= Choose(p, r.id, r.drafts, r.structured).value <= r.drafts
  {
  }

  /** With margin trimming, the known choices rule and a request that is still warming up does
      not hold the batch; without it, one such request keeps every row at full length, as does any
      structured request. */
  lemma {:induction false} WarmingUpBatch(p: Policy, boot: Boot, rows: seq<Row>, i: nat)
    requires p.kSet != [] && i < |rows| && Choose(p, rows[i].id, rows[i].drafts, rows[i].structured).None?
    ensures var w := Width(p, boot, rows);
            if boot.batchMargin && (forall r | r in rows :: !r.structured)
               && (exists r :: r in rows && Choose(p, r.id, r.drafts, r.structured).Some?)
            then && (exists r :: r in rows && Choose(p, r.id, r.drafts, r.structured) == Some(w))
                 && forall r | r in rows && Choose(p, r.id, r.drafts, r.structured).Some? ::
                      w <= Choose(p, r.id, r.drafts, r.structured).value
            else (exists r :: r in rows && r.drafts == w) && forall r | r in rows :: r.drafts <= w
  {
    WarmingUpWidth(p, boot, rows, i);
    KnownChoices(p, rows);
    RowsHaveDrafts(rows);
    assert rows[i] in rows;
    hide Choose, MaxOf, MinOf, Known, Picks, Drafts, AnyStructured, Width;
    var w, known, drafts := Width(p, boot, rows), Known(Picks(p, rows)), Drafts(rows);
    if boot.batchMargin && !AnyStructured(rows) && known != [] {
      assert w in known && forall v | v in known :: w <= v;
    } else {
      assert w in drafts && forall d | d in drafts :: d <= w;
    }
  }

  lemma {:induction false} WarmingUpWidth(p: Policy, boot: Boot, rows: seq<Row>, i: nat)
    requires p.kSet != [] && i < |rows| && Choose(p, rows[i].id, rows[i].drafts, rows[i].structured).None?
    ensures |Drafts(rows)| == |rows|
    ensures var known := Known(Picks(p, rows));
            Width(p, boot, rows) ==
            if boot.batchMargin && !AnyStructured(rows) && known != [] then MinOf(known) else MaxOf(Drafts(rows))
  {
    assert Picks(p, rows)[i].None?;
    hide Choose, MaxOf, MinOf, Known, Picks, AnyStructured;
  }

  /** The known choices are those of the rows. */
  lemma {:induction false} KnownChoices(p: Policy, rows: seq<Row>)
    requires p.kSet != []
    ensures Known(Picks(p, rows)) != [] <==> exists r :: r in rows && Choose(p, r.id, r.drafts, r.structured).Some?
    ensures forall r | r in rows && Choose(p, r.id, r.drafts, r.structured).Some? ::
              Choose(p, r.id, r.drafts, r.structured).value in Known(Picks(p, rows))
    ensures forall v | v in Known(Picks(p, rows)) ::
              exists r :: r in rows && Choose(p, r.id, r.drafts, r.structured) == Some(v)
  {
    hide Choose;
    var picks := Picks(p, rows);
    forall r | r in rows ensures Choose(p, r.id, r.drafts, r.structured) in picks {
      var j :| 0 <= j < |rows| && rows[j] == r;
      assert picks[j] in picks;
    }
    forall v | v in Known(picks) ensures exists r :: r in rows && Choose(p, r.id, r.drafts, r.structured) == Some(v) {
      var j :| 0 <= j < |picks| && picks[j] == Some(v);
      assert rows[j] in rows;
    }
    if Known(picks) != [] {
      var v := Known(picks)[0];
      assert v in Known(picks);
    }
    hide Known;
    if r :| r in rows && Choose(p, r.id, r.drafts, r.structured).Some? {
      assert Choose(p, r.id, r.drafts, r.structured).value in Known(picks);
    }
  }

  lemma {:induction false} RowsHaveDrafts(rows: seq<Row>)
    ensures forall r | r in rows :: r.drafts in Drafts(rows)
    ensures forall d | d in Drafts(rows) :: exists r :: r in rows && r.drafts == d
    ensures AnyStructured(rows) <==> exists r :: r in rows && r.structured
  {
    forall r | r in rows ensures r.drafts in Drafts(rows) {
      var j :| 0 <= j < |rows| && rows[j] == r;
      assert Drafts(rows)[j] == r.drafts;
    }
    forall d | d in Drafts(rows) ensures exists r :: r in rows && r.drafts == d {
      var j :| 0 <= j < |rows| && Drafts(rows)[j] == d;
      assert rows[j] in rows;
    }
    if j :| 0 <= j < |rows| && rows[j].structured {
      assert rows[j] in rows;
    }
  }

  // Saturation.

  /** `n` observations of `id`, each with all of its `drafts` accepted. */
  function AllAccepted(id: ReqId, drafts: seq<int>): seq<Event> {
    if drafts == [] then []
    else AllAccepted(id, drafts[..|drafts| - 1]) + [Observed(id, drafts[|drafts| - 1], drafts[|drafts| - 1])]
  }

  /** A request whose drafts are always accepted never falls below the largest candidate, however
      short or long its drafts, and stays exactly there while they are no longer than that. */
  lemma {:induction false} AcceptedKeepsTop(p: Policy, boot: Boot, id: ReqId, drafts: seq<int>)
    requires Sound(p, boot) && p.enabled && p.saturateMax && id !in p.state && drafts != []
    requires forall i | 0 <= i < |drafts| :: 1 <= drafts[i]
    ensures var r, top := Run(p, boot, AllAccepted(id, drafts)), boot.KMax() as real;
            && id in r.state && r == p.(state := p.state[id := r.state[id]]) && r.state[id].steps == |drafts|
            && (0.0 <= p.alpha <= 1.0 ==> r.state[id].value >= top)
            && ((forall i | 0 <= i < |drafts| :: drafts[i] <= boot.KMax()) ==> r.state[id].value == top)
    decreases |drafts|
  {
    hide Sound, Boot.KMax, Observe, Run;
    var rest, d := drafts[..|drafts| - 1], drafts[|drafts| - 1];
    RunNext(p, boot, AllAccepted(id, rest), Observed(id, d, d));
    if rest == [] {
      AcceptedStep(p, boot, id, d, boot.KMax() as real, 0);
    } else {
      AcceptedKeepsTop(p, boot, id, rest);
      var q := Run(p, boot, AllAccepted(id, rest));
      AcceptedStep(q, boot, id, d, q.state[id].value, |rest|);
      var next := Observe(q, boot, id, d, d).state[id];
      assert q.state[id := next] == p.state[id := next];
    }
  }

  lemma {:induction false} AcceptedStep(p: Policy, boot: Boot, id: ReqId, d: int, value: real, n: nat)
    requires p.enabled && p.saturateMax && 1 <= d
    requires if id in p.state then p.state[id] == Ema(value, n) else n == 0 && value == boot.KMax() as real
    ensures var q, top := Observe(p, boot, id, d, d), boot.KMax() as real;
            && id in q.state && q == p.(state := p.state[id := q.state[id]]) && q.state[id].steps == n + 1
            && (0.0 <= p.alpha <= 1.0 && value >= top ==> q.state[id].value >= top)
            && (value == top && d <= boot.KMax() ==> q.state[id].value == top)
  {
    var obs := Max(boot.KMax(), d);
    BlendFixed(boot.KMax() as real, p.alpha);
    BlendAtLeast(obs as real, value, p.alpha, boot.KMax() as real);
    hide Blend, Boot.KMax;
  }

  lemma {:induction false} BlendFixed(x: real, alpha: real)
    ensures Blend(x, x, alpha) == x
  {
    assert x * alpha + x * (1.0 - alpha) == x * (alpha + (1.0 - alpha));
  }

  lemma {:induction false} BlendAtLeast(obs: real, prev: real, alpha: real, low: real)
    ensures 0.0 <= alpha <= 1.0 && obs >= low && prev >= low ==> Blend(obs, prev, alpha) >= low
  {
    if 0.0 <= alpha <= 1.0 && obs >= low && prev >= low {
      NonNegative(obs - low, alpha);
      NonNegative(prev - low, 1.0 - alpha);
      assert Blend(obs, prev, alpha) == low + (obs - low) * alpha + (prev - low) * (1.0 - alpha);
    }
  }

  lemma {:induction false} NonNegative(x: real, y: real)
    requires x >= 0.0 && y >= 0.0
    ensures x * y >= 0.0
  {
  }

  // Choosing.

  /** A candidate that a request with this reach (average, margin and one) can be given. */
  predicate Affordable(p: Policy, v: int, k: nat, reach: real) {
    v in p.kSet && v <= k && v as real < reach
  }

  /** What `choose` starts from: the largest affordable candidate, or without one the smallest,
      cut to the drafts. */
  ghost predicate IsPick(p: Policy, n: int, k: nat, reach: real)
    requires p.kSet != []
  {
    if exists v :: Affordable(p, v, k, reach)
    then Affordable(p, n, k, reach) && forall v :: Affordable(p, v, k, reach) ==> v <= n
    else n == Min(MinOf(p.kSet), k)
  }

  /** An observed request gets the largest candidate that neither exceeds its drafts nor reaches
      a whole token past its average and margin, but at least one token. */
  lemma {:induction false} ChoiceIsLargestAffordable(p: Policy, id: ReqId, k: nat) returns (n: int)
    requires p.kSet != []
    requires p.enabled && id in p.state && p.state[id].steps >= p.minSteps && k >= 1
    ensures IsPick(p, n, k, p.state[id].value + p.margin + 1.0)
    ensures var reach := p.state[id].value + p.margin + 1.0;
            if exists v :: v in p.kSet && v <= k && v as real < reach
            then n in p.kSet && n <= k && n as real < reach
                 && forall v | v in p.kSet && v <= k && v as real < reach :: v <= n
            else n <= k && (n == k || n in p.kSet) && forall v | v in p.kSet :: n <= v
    ensures Choose(p, id, k, false) == Some(if n >= 1 then n else 1)
  {
    hide MaxOf, MinOf, AtMost;
    var reach := p.state[id].value + p.margin + 1.0;
    var target := Ceil(p.state[id].value + p.margin);
    var cands := AtMost(p.kSet, Min(target, k));
    forall v | v in p.kSet ensures v in cands <==> Affordable(p, v, k, reach) {
      CeilReach(v, p.state[id].value + p.margin);
    }
    n := Min(if cands != [] then MaxOf(cands) else MinOf(p.kSet), k);
    if cands == [] {
      assert forall v :: v !in cands;
    } else {
      assert Affordable(p, MaxOf(cands), k, reach);
    }
  }

  lemma {:induction false} CeilReach(v: int, x: real)
    ensures v <= Ceil(x) <==> v as real < x + 1.0
  {
  }

  /** With a margin above minus one, a request that always has its drafts accepted is offered no
      less than any candidate that fits its drafts. */
  lemma {:induction false} AcceptedNeverShrinks(p: Policy, boot: Boot, id: ReqId, drafts: seq<int>, k: nat)
    requires Sound(p, boot) && p.enabled && p.saturateMax && id !in p.state && drafts != [] && k >= 1
    requires forall i | 0 <= i < |drafts| :: 1 <= drafts[i]
    requires 0.0 <= p.alpha <= 1.0 || forall i | 0 <= i < |drafts| :: drafts[i] <= boot.KMax()
    requires p.margin > -1.0 && p.minSteps <= |drafts|
    ensures var c := Choose(Run(p, boot, AllAccepted(id, drafts)), id, k, false);
            c.Some? && forall v | v in p.kSet && v <= k :: v <= c.value
  {
    AcceptedKeepsTop(p, boot, id, drafts);
    hide Run, Choose, MinOf, MaxOf;
    var r := Run(p, boot, AllAccepted(id, drafts));
    var n := ChoiceIsLargestAffordable(r, id, k);
    forall v | v in p.kSet && v <= k ensures v <= n {
      assert v in boot.kSet && v <= boot.KMax();
      assert Affordable(r, v, k, r.state[id].value + r.margin + 1.0);
    }
  }

  /** And only with such a margin: with drafts up to the largest candidate and room for it, that
      candidate is the choice exactly when the margin is above minus one, or it is one, or there
      is no other. */
  lemma {:induction false} AcceptedGetsTopIff(p: Policy, boot: Boot, id: ReqId, drafts: seq<int>, k: nat)
    requires Sound(p, boot) && p.enabled && p.saturateMax && id !in p.state && drafts != []
    requires forall i | 0 <= i < |drafts| :: 1 <= drafts[i] <= boot.KMax()
    requires boot.KMax() in p.kSet && boot.KMax() <= k && p.minSteps <= |drafts|
    ensures Choose(Run(p, boot, AllAccepted(id, drafts)), id, k, false) == Some(boot.KMax()) <==>
            p.margin > -1.0 || boot.KMax() == 1 || forall v | v in p.kSet :: v == boot.KMax()
  {
    AcceptedKeepsTop(p, boot, id, drafts);
    assert 1 <= drafts[0] <= boot.KMax();
    CandidatesBelowTop(p, boot);
    hide Run, Choose, Sound, AllAccepted, Boot.KMax;
    ChoiceAtTop(Run(p, boot, AllAccepted(id, drafts)), id, boot.KMax(), k);
  }

  lemma {:induction false} ChoiceAtTop(p: Policy, id: ReqId, top: int, k: nat)
    requires p.enabled && id in p.state && p.state[id].steps >= p.minSteps && p.state[id].value == top as real
    requires p.kSet != [] && top in p.kSet && 1 <= top <= k && forall v | v in p.kSet :: v <= top
    ensures Choose(p, id, k, false) == Some(top) <==>
            p.margin > -1.0 || top == 1 || forall v | v in p.kSet :: v == top
  {
    var n := ChoiceIsLargestAffordable(p, id, k);
    hide Choose, IsPick, Max;
    PickOfTop(p, top, n, k, p.state[id].value + p.margin + 1.0);
  }

  lemma {:induction false} CandidatesBelowTop(p: Policy, boot: Boot)
    requires Sound(p, boot)
    ensures forall v | v in p.kSet :: v <= boot.KMax()
  {
    assert forall v | v in p.kSet :: v in boot.kSet;
  }

  lemma {:induction false} PickOfTop(p: Policy, top: int, n: int, k: nat, reach: real)
    requires p.kSet != [] && top in p.kSet && 1 <= top <= k && IsPick(p, n, k, reach)
    requires reach == top as real + p.margin + 1.0 && forall v | v in p.kSet :: v <= top
    ensures Max(1, n) == top <==> p.margin > -1.0 || top == 1 || forall v | v in p.kSet :: v == top
  {
    hide MinOf;
    if p.margin > -1.0 {
      assert Affordable(p, top, k, reach);
    } else if exists v :: Affordable(p, v, k, reach) {
      assert n < top && n in p.kSet;
    } else {
      assert n == MinOf(p.kSet) && MinOf(p.kSet) in p.kSet;
    }
  }

  // Decay.

  /** `n` observations of `id` without an accepted draft. */
  function NoneAccepted(id: ReqId, drafts: nat, n: nat): seq<Event> {
    if n == 0 then [] else NoneAccepted(id, drafts, n - 1) + [Observed(id, drafts, 0)]
  }

  function Power(x: real, n: nat): real {
    if n == 0 then 1.0 else Power(x, n - 1) * x
  }

  lemma {:induction false} NextRejected(p: Policy, boot: Boot, id: ReqId, drafts: nat, value: real, next: real, n: nat)
    requires p.enabled && drafts >= 1 && next == value * (1.0 - p.alpha)
    requires if n == 0 then id !in p.state && value == boot.KMax() as real
             else id in p.state && p.state[id] == Ema(value, n)
    ensures Observe(p, boot, id, drafts, 0) == p.(state := p.state[id := Ema(next, n + 1)])
  {
    hide Boot.KMax, Blend;
    BlendOfNothing(value, p.alpha);
  }

  lemma {:induction false} BlendOfNothing(value: real, alpha: real)
    ensures Blend(0 as real, value, alpha) == value * (1.0 - alpha)
  {
  }

  /** The largest candidate times the `n`-th power of `1 - alpha`. */
  function Decayed(p: Policy, boot: Boot, n: nat): real {
    boot.KMax() as real * Power(1.0 - p.alpha, n)
  }

  /** A request whose drafts are all rejected forgets its start geometrically. */
  lemma {:induction false} RejectedDecays(p: Policy, boot: Boot, id: ReqId, drafts: nat, n: nat)
    requires Sound(p, boot) && p.enabled && id !in p.state && drafts >= 1 && n >= 1
    ensures Run(p, boot, NoneAccepted(id, drafts, n)) == p.(state := p.state[id := Ema(Decayed(p, boot, n), n)])
    decreases n
  {
    hide Sound, Observe, Boot.KMax, Run, Decayed;
    RunNext(p, boot, NoneAccepted(id, drafts, n - 1), Observed(id, drafts, 0));
    DecayedStep(p, boot, n);
    if n == 1 {
      NextRejected(p, boot, id, drafts, Decayed(p, boot, 0), Decayed(p, boot, 1), 0);
    } else {
      RejectedDecays(p, boot, id, drafts, n - 1);
      var last, next := Ema(Decayed(p, boot, n - 1), n - 1), Ema(Decayed(p, boot, n), n);
      NextRejected(p.(state := p.state[id := last]), boot, id, drafts, last.value, next.value, n - 1);
      assert p.state[id := last][id := next] == p.state[id := next];
    }
  }

  lemma {:induction false} DecayedStep(p: Policy, boot: Boot, n: nat)
    requires n >= 1
    ensures Decayed(p, boot, 0) == boot.KMax() as real
    ensures Decayed(p, boot, n) == Decayed(p, boot, n - 1) * (1.0 - p.alpha)
  {
    hide Boot.KMax;
    var top, x, y := boot.KMax() as real, Power(1.0 - p.alpha, n - 1), 1.0 - p.alpha;
    assert top * x * y == top * (x * y);
  }

  // Counting.

  /** Pruning drops only requests that are gone: a live request's choice does not change. */
  lemma {:induction false} PruningKeepsChoices(
    p: Policy, boot: Boot, n: int, live: set<ReqId>, id: ReqId, k: nat, structured: bool)
    requires p.kSet != [] && id in live
    ensures Choose(CountStep(p, boot, n, live), id, k, structured) == Choose(p, id, k, structured)
  {
    hide MaxOf, MinOf, AtMost, Ceil, Min, Max;
    var q := CountStep(p, boot, n, live);
    assert id in q.state <==> id in p.state;
    hide CountStep;
  }

  /** A reload that gets to its end clears the histogram. */
  predicate Clears(p: Policy, boot: Boot, f: File) {
    && p.steps % 50 == 0 && boot.enabled && f.Present? && Some(f.mtime) != p.fileMtime && f.content.Override?
    && !TakeNumbers(p, f.content).1 && !f.content.kSet.Bad?
  }

  /** The trimming steps of a run since the histogram was last cleared. */
  ghost function CountedSince(p: Policy, boot: Boot, events: seq<Event>): nat
    requires Sound(p, boot)
  {
    if events == [] then 0
    else
      var m := |events| - 1;
      CountedAfter(Run(p, boot, events[..m]), boot, events[m], CountedSince(p, boot, events[..m]))
  }

  function CountedAfter(p: Policy, boot: Boot, e: Event, before: nat): nat {
    match e
    case Observed(_, _, _) => before
    case Updated(rows, _, f) =>
      if Gated(p, rows) == [] then before
      else (if Clears(p, boot, f) then 0 else before) + (if Opened(p, boot, f).enabled then 1 else 0)
  }

  /** The histogram's total is the number of trimming steps since it was last cleared. */
  lemma {:induction false} HistogramCountsSteps(p: Policy, boot: Boot, events: seq<Event>)
    requires Sound(p, boot) && p.hist == map[]
    ensures MapSum(Run(p, boot, events).hist) == CountedSince(p, boot, events)
    decreases |events|
  {
    hide Sound, CountedAfter, MapSum, Step;
    if events == [] {
      assert MapSum(p.hist) == 0 by { EmptySum(p.hist); }
    } else {
      var m := |events| - 1;
      HistogramCountsSteps(p, boot, events[..m]);
      StepCounts(Run(p, boot, events[..m]), boot, events[m]);
    }
  }

  lemma {:induction false} EmptySum(m: map<int, nat>)
    requires m == map[]
    ensures MapSum(m) == 0
  {
  }

  lemma {:induction false} StepCounts(p: Policy, boot: Boot, e: Event)
    requires Sound(p, boot)
    ensures MapSum(Step(p, boot, e).hist) == CountedAfter(p, boot, e, MapSum(p.hist))
  {
    hide Sound, MapSum, Width, Gated;
    match e
    case Observed(_, _, _) =>
    case Updated(rows, live, f) =>
      UpdateKeepsSound(p, boot, rows, live, f);
      var g := Gated(p, rows);
      if g != [] {
        OpenedHistogram(p, boot, f);
        hide Opened, Clears;
        var q := Opened(p, boot, f);
        if q.enabled {
          var n := Width(q, boot, g);
          MapSumUpdate(q.hist, n, (if n in q.hist then q.hist[n] else 0) + 1);
        }
      }
  }

  lemma {:induction false} OpenedHistogram(p: Policy, boot: Boot, f: File)
    ensures MapSum(Opened(p, boot, f).hist) == if Clears(p, boot, f) then 0 else MapSum(p.hist)
  {
    EmptySum(map[]);
    hide MapSum, Allowed, TakeNumbers;
  }
}
