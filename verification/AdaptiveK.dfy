/** The adaptive verification-length policy: a per-request moving average of accepted drafts
    picks how many draft tokens the target verifies, one width for the whole batch. */
module AdaptiveK {
  import opened Wrappers
  import opened Arith

  type ReqId = string
  type Token = int

  datatype Ema = Ema(value: real, steps: nat)

  /** Fixed at boot from the environment. */
  datatype Boot = Boot(enabled: bool, kSet: seq<int>, batchMargin: bool, posTrim: bool, histEvery: int) {
    /** `k_max` of the candidate list. */
    function KMax(): int { if kSet == [] then 0 else MaxOf(kSet) }
  }

  /** Everything that changes while serving. */
  datatype Policy = Policy(
    enabled: bool, alpha: real, margin: real, minSteps: int, kSet: seq<int>, saturateMax: bool,
    state: map<ReqId, Ema>, hist: map<int, nat>, steps: nat, fileMtime: Option<int>)

  function MaxOf(s: seq<int>): (m: int)
    requires s != []
    ensures m in s && forall v | v in s :: v <= m
  {
    if |s| == 1 then s[0]
    else var m := MaxOf(s[1..]); assert s == [s[0]] + s[1..]; if s[0] >= m then s[0] else m
  }

  function MinOf(s: seq<int>): (m: int)
    requires s != []
    ensures m in s && forall v | v in s :: m <= v
  {
    if |s| == 1 then s[0]
    else var m := MinOf(s[1..]); assert s == [s[0]] + s[1..]; if s[0] <= m then s[0] else m
  }

  function AtMost(s: seq<int>, bound: int): (r: seq<int>)
    ensures forall v :: v in r <==> v in s && v <= bound
  {
    if s == [] then []
    else assert s == [s[0]] + s[1..]; (if s[0] <= bound then [s[0]] else []) + AtMost(s[1..], bound)
  }

  function Keep(s: seq<int>, want: set<int>): (r: seq<int>)
    ensures forall v :: v in r <==> v in s && v in want
  {
    if s == [] then []
    else assert s == [s[0]] + s[1..]; (if s[0] in want then [s[0]] else []) + Keep(s[1..], want)
  }

  function Ceil(x: real): int { -((-x).Floor) }

  // The override file.

  /** A field of the override file: absent, a value, or something the conversion rejects. */
  datatype Field<+T> = Absent | Value(v: T) | Bad

  datatype Override =
    | Unreadable
    | Override(emaMode: bool, alpha: Field<real>, margin: Field<real>, minSteps: Field<int>,
               saturateMax: Option<bool>, kSet: Field<set<int>>)

  datatype File = Missing | Present(mtime: int, content: Override)

  /** The boot candidates that are wanted, or all of them when none is. */
  function Allowed(boot: Boot, want: set<int>): (k: seq<int>)
    ensures SubList(boot.kSet, boot) && boot.kSet != [] ==> k != [] && SubList(k, boot)
  {
    var common := Keep(boot.kSet, want);
    if common == [] then boot.kSet else common
  }

  ghost predicate SubList(k: seq<int>, boot: Boot) {
    forall v | v in k :: v in boot.kSet
  }

  /** Fields are taken in order; the first one that cannot be converted stops the reload where
      it is, without undoing what was set before it. The flag says whether that happened. */
  function TakeNumbers(p: Policy, o: Override): (r: (Policy, bool))
    requires o.Override?
    ensures r.0.kSet == p.kSet && r.0.enabled == o.emaMode && r.0.hist == p.hist
  {
    var p := p.(enabled := o.emaMode);
    if o.alpha.Bad? then (p, true) else
    var p := if o.alpha.Value? then p.(alpha := o.alpha.v) else p;
    if o.margin.Bad? then (p, true) else
    var p := if o.margin.Value? then p.(margin := o.margin.v) else p;
    if o.minSteps.Bad? then (p, true) else
    (if o.minSteps.Value? then p.(minSteps := o.minSteps.v) else p, false)
  }

  function TakeFields(p: Policy, boot: Boot, o: Override): Policy
    requires o.Override?
  {
    var (p, stopped) := TakeNumbers(p, o);
    if stopped then p else
    var p := if o.saturateMax.Some? then p.(saturateMax := o.saturateMax.value) else p;
    if o.kSet.Bad? then p else
    var p := if o.kSet.Value? then p.(kSet := Allowed(boot, o.kSet.v)) else p;
    p.(state := map[], hist := map[])
  }

  function Reload(p: Policy, boot: Boot, f: File): Policy {
    var mtime := if f.Missing? then None else Some(f.mtime);
    if !boot.enabled || mtime == p.fileMtime then p
    else
      var p := p.(fileMtime := mtime);
      if f.Missing? || f.content.Unreadable? then p else TakeFields(p, boot, f.content)
  }

  /** The candidates are the wanted ones among those of the boot, or all of those when none is. */
  lemma {:induction false} AllowedAreWanted(boot: Boot, want: set<int>)
    ensures (exists v :: v in boot.kSet && v in want) ==>
              forall v :: v in Allowed(boot, want) <==> v in boot.kSet && v in want
    ensures !(exists v :: v in boot.kSet && v in want) ==> Allowed(boot, want) == boot.kSet
  {
    var common := Keep(boot.kSet, want);
    if common != [] {
      var v := common[0];
      assert v in common;
      assert v in boot.kSet && v in want;
    }
  }

  /** What a file does, field by field: a number is taken unless it or an earlier one is bad, a
      later field unless any earlier one is; the averages and the histogram are cleared only if no
      field was bad. */
  lemma {:induction false} OverrideByField(p: Policy, boot: Boot, o: Override)
    requires o.Override?
    ensures var r, bad := TakeFields(p, boot, o), o.alpha.Bad? || o.margin.Bad? || o.minSteps.Bad?;
            && r.enabled == o.emaMode
            && r.alpha == (if o.alpha.Value? then o.alpha.v else p.alpha)
            && r.margin == (if o.alpha.Bad? || !o.margin.Value? then p.margin else o.margin.v)
            && r.minSteps == (if bad || o.minSteps.Absent? then p.minSteps else o.minSteps.v)
            && r.saturateMax == (if bad || o.saturateMax.None? then p.saturateMax else o.saturateMax.value)
            && r.kSet == (if bad || !o.kSet.Value? then p.kSet else Allowed(boot, o.kSet.v))
            && r.state == (if bad || o.kSet.Bad? then p.state else map[])
            && r.hist == (if bad || o.kSet.Bad? then p.hist else map[])
            && r.steps == p.steps && r.fileMtime == p.fileMtime
  {
    NumbersByField(p, o);
    hide Allowed, TakeNumbers;
  }

  lemma {:induction false} NumbersByField(p: Policy, o: Override)
    requires o.Override?
    ensures var (r, stopped) := TakeNumbers(p, o);
            && stopped == (o.alpha.Bad? || o.margin.Bad? || o.minSteps.Bad?)
            && r == p.(enabled := o.emaMode, alpha := r.alpha, margin := r.margin, minSteps := r.minSteps)
            && r.alpha == (if o.alpha.Value? then o.alpha.v else p.alpha)
            && r.margin == (if o.alpha.Bad? || !o.margin.Value? then p.margin else o.margin.v)
            && r.minSteps == (if stopped || o.minSteps.Absent? then p.minSteps else o.minSteps.v)
  {
  }

  /** A file is looked at on every fiftieth step, by a policy that was on at boot, and taken when
      its time has changed; a file that is gone or cannot be read only leaves its time. */
  lemma {:induction false} FileIsTakenIff(p: Policy, boot: Boot, f: File)
    ensures p.steps % 50 != 0 || !boot.enabled ==> Opened(p, boot, f) == p
    ensures p.steps % 50 == 0 && boot.enabled ==>
              var mtime := if f.Present? then Some(f.mtime) else None;
              Opened(p, boot, f) ==
              if mtime != p.fileMtime && f.Present? && f.content.Override?
              then TakeFields(p.(fileMtime := mtime), boot, f.content) else p.(fileMtime := mtime)
  {
    hide TakeFields;
  }

  // Observing and choosing.

  function Observe(p: Policy, boot: Boot, id: ReqId, numDraft: int, numAccepted: int): Policy {
    if !p.enabled || numDraft <= 0 then p
    else
      var obs := if numAccepted >= numDraft && p.saturateMax then Max(boot.KMax(), numDraft) else numAccepted;
      var prev := if id in p.state then p.state[id] else Ema(boot.KMax() as real, 0);
      p.(state := p.state[id := Ema(Blend(obs as real, prev.value, p.alpha), prev.steps + 1)])
  }

  function Blend(obs: real, prev: real, alpha: real): real {
    obs * alpha + prev * (1.0 - alpha)
  }

  /** One observation moves the request's average by the share `alpha` of its distance to what was
      seen: the accepted drafts, or when all of them were and saturation is on, the larger of the
      drafts and the largest candidate. The average starts at the largest candidate. */
  lemma {:induction false} ObservedAverage(p: Policy, boot: Boot, id: ReqId, numDraft: int, numAccepted: int, top: int)
    requires if boot.kSet == [] then top == 0 else top in boot.kSet && forall v | v in boot.kSet :: v <= top
    ensures !p.enabled || numDraft <= 0 ==> Observe(p, boot, id, numDraft, numAccepted) == p
    ensures p.enabled && numDraft > 0 ==>
              var r := Observe(p, boot, id, numDraft, numAccepted);
              var prev, steps := if id in p.state then p.state[id].value else top as real,
                                 if id in p.state then p.state[id].steps else 0;
              var seen := if numAccepted < numDraft || !p.saturateMax then numAccepted
                          else if numDraft > top then numDraft else top;
              && id in r.state && r == p.(state := p.state[id := r.state[id]])
              && r.state[id].steps == steps + 1
              && r.state[id].value - prev == p.alpha * (seen as real - prev)
  {
    assert boot.KMax() == top;
    if p.enabled && numDraft > 0 {
      var seen := if numAccepted >= numDraft && p.saturateMax then Max(top, numDraft) else numAccepted;
      BlendMoves(seen as real, if id in p.state then p.state[id].value else top as real, p.alpha);
      hide Blend;
    }
  }

  lemma {:induction false} BlendMoves(obs: real, prev: real, alpha: real)
    ensures Blend(obs, prev, alpha) - prev == alpha * (obs - prev)
  {
  }

  /** None when the request must stay at its full length. */
  function Choose(p: Policy, id: ReqId, k: int, structured: bool): (n: Option<int>)
    requires p.kSet != []
    ensures n.Some? ==> 1 <= n.value <= k
    ensures n.Some? ==> n.value in p.kSet || n.value == k || (n.value == 1 && MinOf(p.kSet) <= 0)
    ensures n.Some? ==> !structured && p.enabled
  {
    if !p.enabled || structured || k <= 0 then None
    else if id !in p.state || p.state[id].steps < p.minSteps then None
    else
      var target := Ceil(p.state[id].value + p.margin);
      var cands := AtMost(p.kSet, Min(target, k));
      var n := if cands != [] then MaxOf(cands) else MinOf(p.kSet);
      Some(Max(1, Min(n, k)))
  }

  /** Which requests are chosen for at all. */
  lemma {:induction false} ChosenIff(p: Policy, id: ReqId, k: int, structured: bool)
    requires p.kSet != []
    ensures Choose(p, id, k, structured).Some? <==>
            p.enabled && !structured && k > 0 && id in p.state && p.state[id].steps >= p.minSteps
  {
    hide AtMost, MaxOf, MinOf, Ceil;
  }

  /** One request of the batch: its id, its draft length, and whether a grammar constrains it. */
  datatype Row = Row(id: ReqId, drafts: nat, structured: bool)

  function Picks(p: Policy, rows: seq<Row>): (s: seq<Option<int>>)
    requires p.kSet != []
    ensures |s| == |rows|
    ensures forall i | 0 <= i < |rows| :: s[i] == Choose(p, rows[i].id, rows[i].drafts, rows[i].structured)
  {
    seq(|rows|, i requires 0 <= i < |rows| => Choose(p, rows[i].id, rows[i].drafts, rows[i].structured))
  }

  function Known(picks: seq<Option<int>>): (k: seq<int>)
    ensures forall v :: v in k <==> Some(v) in picks
    ensures (forall i | 0 <= i < |picks| :: picks[i].Some?) ==> |k| == |picks|
  {
    if picks == [] then []
    else
      assert picks == [picks[0]] + picks[1..];
      (if picks[0].Some? then [picks[0].value] else []) + Known(picks[1..])
  }

  predicate AllKnown(picks: seq<Option<int>>) {
    forall i | 0 <= i < |picks| :: picks[i].Some?
  }

  predicate AnyStructured(rows: seq<Row>) {
    exists i | 0 <= i < |rows| :: rows[i].structured
  }

  function MarginWidth(boot: Boot, rows: seq<Row>, picks: seq<Option<int>>): Option<int> {
    if !boot.batchMargin || AnyStructured(rows) then None
    else if Known(picks) == [] then None
    else Some(MinOf(Known(picks)))
  }

  function PosWidth(p: Policy, boot: Boot, rows: seq<Row>, picks: seq<Option<int>>, n: int): Option<int> {
    if !(boot.posTrim && boot.batchMargin) || AnyStructured(rows) || |rows| < 2 || !AllKnown(picks) then None
    else
      var floor := if p.kSet != [] then MinOf(p.kSet) else n;
      if floor < n then Some(Min(n, floor)) else None
  }

  function Drafts(rows: seq<Row>): (d: seq<int>)
    ensures |d| == |rows| && forall i | 0 <= i < |rows| :: d[i] == rows[i].drafts
  {
    seq(|rows|, i requires 0 <= i < |rows| => rows[i].drafts)
  }

  /** The one width `apply` trims the batch to. */
  function Width(p: Policy, boot: Boot, rows: seq<Row>): int
    requires p.kSet != [] && rows != []
  {
    var picks := Picks(p, rows);
    if AllKnown(picks) then
      var n := MinOf(Known(picks));
      var gated := PosWidth(p, boot, rows, picks, n);
      if gated.Some? then gated.value else n
    else
      var m := MarginWidth(boot, rows, picks);
      if m.Some? then m.value else MaxOf(Drafts(rows))
  }

  function CountStep(p: Policy, boot: Boot, n: int, live: set<ReqId>): Policy {
    var p := p.(hist := p.hist[n := (if n in p.hist then p.hist[n] else 0) + 1], steps := p.steps + 1);
    if boot.histEvery > 0 && p.steps % boot.histEvery == 0
    then p.(state := map id | id in p.state && id in live :: p.state[id])
    else p
  }

  /** The policy after the reload that opens every fiftieth step. */
  function Opened(p: Policy, boot: Boot, f: File): Policy {
    if p.steps % 50 == 0 then Reload(p, boot, f) else p
  }

  function Apply(p: Policy, boot: Boot, rows: seq<Row>, live: set<ReqId>, f: File): Policy
    requires Opened(p, boot, f).kSet != []
  {
    var p := Opened(p, boot, f);
    if !p.enabled || rows == [] then p.(steps := p.steps + 1)
    else CountStep(p, boot, Width(p, boot, rows), live)
  }

  /** The rows handed to `apply`: none while the policy is off, else those that have drafts. */
  function Gated(p: Policy, rows: seq<Row>): (g: seq<Row>)
    ensures forall r :: r in g <==> p.enabled && r in rows && r.drafts > 0
  {
    if !p.enabled || rows == [] then []
    else
      var m := |rows| - 1;
      assert rows == rows[..m] + [rows[m]];
      Gated(p, rows[..m]) + if rows[m].drafts > 0 then [rows[m]] else []
  }

  /** And each of them as often as it was listed. */
  lemma {:induction false} GatedOnce(p: Policy, rows: seq<Row>, r: Row)
    ensures multiset(Gated(p, rows))[r] == if p.enabled && r.drafts > 0 then multiset(rows)[r] else 0
    decreases |rows|
  {
    if !p.enabled || rows == [] {
    } else {
      var m := |rows| - 1;
      GatedOnce(p, rows[..m], r);
      assert rows == rows[..m] + [rows[m]];
    }
  }

  /** The scheduler's update of the draft tokens, as far as the policy sees it. */
  function UpdateDrafts(p: Policy, boot: Boot, rows: seq<Row>, live: set<ReqId>, f: File): Policy
    requires Opened(p, boot, f).kSet != []
  {
    var g := Gated(p, rows);
    if g == [] then p else Apply(p, boot, g, live, f)
  }

  /** From `q` to `r` one step of width `w` was counted, averages were dropped of requests that are
      gone if the histogram was due, and nothing else happened. */
  ghost predicate CountedOnce(q: Policy, boot: Boot, r: Policy, w: int, live: set<ReqId>) {
    var due := boot.histEvery > 0 && r.steps % boot.histEvery == 0;
    && r == q.(hist := r.hist, steps := q.steps + 1, state := r.state)
    && w in r.hist && r.hist[w] == 1 + (if w in q.hist then q.hist[w] else 0)
    && (forall v | v != w :: v in r.hist <==> v in q.hist)
    && (forall v | v != w && v in q.hist :: r.hist[v] == q.hist[v])
    && (forall id :: id in r.state <==> id in q.state && (due ==> id in live))
    && forall id | id in r.state :: r.state[id] == q.state[id]
  }

  lemma {:induction false} CountStepOnce(q: Policy, boot: Boot, w: int, live: set<ReqId>)
    ensures CountedOnce(q, boot, CountStep(q, boot, w, live), w, live)
  {
  }

  lemma {:induction false} GatedEmptyIff(p: Policy, rows: seq<Row>)
    ensures Gated(p, rows) == [] <==> !p.enabled || forall r | r in rows :: r.drafts == 0
  {
    var g := Gated(p, rows);
    if g != [] {
      var r := g[0];
      assert r in g;
      assert r in rows && r.drafts > 0;
    } else {
      forall r | r in rows && p.enabled ensures r.drafts == 0 {
        assert r !in g;
      }
    }
  }

  /** A batch without drafts, or a policy that is off, is not even a step. Any other update is one,
      and unless the file it opened with turned the policy off, the width it used is counted. */
  lemma {:induction false} UpdateIsCounted(p: Policy, boot: Boot, rows: seq<Row>, live: set<ReqId>, f: File)
    requires Opened(p, boot, f).kSet != []
    ensures !p.enabled || (forall r | r in rows :: r.drafts == 0) ==> UpdateDrafts(p, boot, rows, live, f) == p
    ensures p.enabled && !(forall r | r in rows :: r.drafts == 0) ==>
              var q, r := Opened(p, boot, f), UpdateDrafts(p, boot, rows, live, f);
              && (!q.enabled ==> r == q.(steps := q.steps + 1))
              && (q.enabled ==> Gated(p, rows) != [] && CountedOnce(q, boot, r, Width(q, boot, Gated(p, rows)), live))
  {
    hide Opened, Width;
    GatedEmptyIff(p, rows);
    hide Gated;
    var q := Opened(p, boot, f);
    if q.enabled && Gated(p, rows) != [] {
      CountStepOnce(q, boot, Width(q, boot, Gated(p, rows)), live);
      hide CountedOnce, CountStep;
    }
  }

  /** Python's `s[:n]`, where a negative `n` counts from the end. */
  function Prefix<T>(s: seq<T>, n: int): seq<T> {
    if n >= |s| then s
    else if n >= 0 then s[..n]
    else s[..Max(0, |s| + n)]
  }

  function Trimmed(spec: seq<Token>, n: int): seq<Token> {
    if |spec| > n then Prefix(spec, n) else spec
  }

  // The stateful objects.

  class Request {
    const id: ReqId
    var specTokenIds: seq<Token>

    constructor (id: ReqId, drafts: seq<Token>)
      ensures this.id == id && specTokenIds == drafts
    {
      this.id, specTokenIds := id, drafts;
    }
  }

  datatype Entry = Entry(request: Request, structured: bool)

  function RowOf(e: Entry): Row
    reads e.request
  {
    Row(e.request.id, |e.request.specTokenIds|, e.structured)
  }

  function RowsOf(reqs: seq<Entry>): (rows: seq<Row>)
    reads set i | 0 <= i < |reqs| :: reqs[i].request
    ensures |rows| == |reqs|
    ensures forall i | 0 <= i < |reqs| ::
              rows[i] == Row(reqs[i].request.id, |reqs[i].request.specTokenIds|, reqs[i].structured)
  {
    if reqs == [] then [] else RowsOf(reqs[..|reqs| - 1]) + [RowOf(reqs[|reqs| - 1])]
  }

  /** The entries handed to `apply`. */
  function GatedEntries(on: bool, reqs: seq<Entry>): (g: seq<Entry>)
    reads set i | 0 <= i < |reqs| :: reqs[i].request
    ensures forall e | e in g :: on && e in reqs && |e.request.specTokenIds| > 0
    ensures forall e | e in reqs && on && |e.request.specTokenIds| > 0 :: e in g
  {
    if !on || reqs == [] then []
    else
      var m := |reqs| - 1;
      assert reqs == reqs[..m] + [reqs[m]];
      GatedEntries(on, reqs[..m]) + if |reqs[m].request.specTokenIds| > 0 then [reqs[m]] else []
  }

  /** Selecting entries and then reading their rows, or the other way round. */
  lemma {:induction false} RowsOfGated(p: Policy, reqs: seq<Entry>)
    ensures RowsOf(GatedEntries(p.enabled, reqs)) == Gated(p, RowsOf(reqs))
    decreases |reqs|
  {
    if !p.enabled || reqs == [] {
    } else {
      var m := |reqs| - 1;
      RowsOfGated(p, reqs[..m]);
      assert RowsOf(reqs)[..m] == RowsOf(reqs[..m]);
      var g := GatedEntries(p.enabled, reqs[..m]);
      assert (g + [reqs[m]])[..|g|] == g;
    }
  }

  lemma {:induction false} NoRowsIff(reqs: seq<Entry>)
    ensures RowsOf(reqs) == [] <==> reqs == []
  {
    assert |RowsOf(reqs)| == |reqs|;
  }

  /** No request is listed twice. */
  ghost predicate Apart(reqs: seq<Entry>) {
    forall i, j | 0 <= i < j < |reqs| :: reqs[i].request != reqs[j].request
  }

  lemma {:induction false} ApartSnoc(g: seq<Entry>, e: Entry)
    requires Apart(g) && forall i | 0 <= i < |g| :: g[i].request != e.request
    ensures Apart(g + [e])
  {
  }

  lemma {:induction false} GatedApart(on: bool, reqs: seq<Entry>)
    requires Apart(reqs)
    ensures Apart(GatedEntries(on, reqs))
    decreases |reqs|
  {
    if !on || reqs == [] {
    } else {
      var m := |reqs| - 1;
      GatedApart(on, reqs[..m]);
      LastApart(reqs, GatedEntries(on, reqs[..m]));
      hide Apart;
      ApartSnoc(GatedEntries(on, reqs[..m]), reqs[m]);
    }
  }

  lemma {:induction false} LastApart(reqs: seq<Entry>, g: seq<Entry>)
    requires reqs != [] && Apart(reqs) && forall e | e in g :: e in reqs[..|reqs| - 1]
    ensures forall i | 0 <= i < |g| :: g[i].request != reqs[|reqs| - 1].request
  {
    forall i | 0 <= i < |g| ensures g[i].request != reqs[|reqs| - 1].request {
      assert g[i] in g;
      assert g[i] in reqs[..|reqs| - 1];
      var k :| 0 <= k < |reqs| - 1 && reqs[k] == g[i];
    }
  }

  /** An entry that was not selected shares its request with none that was. */
  lemma {:induction false} NotSelected(reqs: seq<Entry>, g: seq<Entry>, i: nat)
    requires Apart(reqs) && i < |reqs| && reqs[i] !in g && forall e | e in g :: e in reqs
    ensures forall j | 0 <= j < |g| :: g[j].request != reqs[i].request
  {
    forall j | 0 <= j < |g| ensures g[j].request != reqs[i].request {
      assert g[j] in g && g[j] in reqs;
      var k :| 0 <= k < |reqs| && reqs[k] == g[j];
    }
  }

  ghost predicate Lists(g: seq<Entry>, r: Request) {
    exists j :: 0 <= j < |g| && g[j].request == r
  }

  /** The selection lists exactly the requests that have drafts. */
  lemma {:induction false} GatedLists(on: bool, reqs: seq<Entry>, i: nat)
    requires Apart(reqs) && i < |reqs|
    ensures Lists(GatedEntries(on, reqs), reqs[i].request) <==> on && |reqs[i].request.specTokenIds| > 0
  {
    var g := GatedEntries(on, reqs);
    assert reqs[i] in reqs;
    if on && |reqs[i].request.specTokenIds| > 0 {
      assert reqs[i] in g;
      var j :| 0 <= j < |g| && g[j] == reqs[i];
      assert g[j].request == reqs[i].request;
    } else {
      NotSelected(reqs, g, i);
    }
  }

  class AdaptivePolicy {
    const boot: Boot
    var enabled: bool
    var alpha: real
    var margin: real
    var minSteps: int
    var kSet: seq<int>
    var saturateMax: bool
    var state: map<ReqId, Ema>
    var hist: map<int, nat>
    var steps: nat
    var fileMtime: Option<int>

    function Snapshot(): Policy
      reads this
    {
      Policy(enabled, alpha, margin, minSteps, kSet, saturateMax, state, hist, steps, fileMtime)
    }

    ghost predicate Valid()
      reads this
    {
      Sound(Snapshot(), boot)
    }

    constructor (boot: Boot, alpha: real, margin: real, minSteps: int, saturateMax: bool, f: File)
      requires boot.kSet != []
      ensures this.boot == boot && Valid()
      ensures var p := Policy(boot.enabled, alpha, margin, minSteps, boot.kSet, saturateMax, map[], map[], 0, None);
              Snapshot() == Reload(p, boot, f)
    {
      this.boot := boot;
      enabled, this.alpha, this.margin, this.minSteps := boot.enabled, alpha, margin, minSteps;
      kSet, this.saturateMax := boot.kSet, saturateMax;
      state, hist, steps, fileMtime := map[], map[], 0, None;
      new;
      ReloadFile(f);
    }

    method ReloadFile(f: File)
      requires Valid()
      modifies this
      ensures Snapshot() == Reload(old(Snapshot()), boot, f) && Valid()
    {
      hide Sound, Allowed;
      ReloadKeepsSound(Snapshot(), boot, f);
      if !boot.enabled { return; }
      var mtime := if f.Missing? then None else Some(f.mtime);
      if mtime == fileMtime { return; }
      fileMtime := mtime;
      if mtime.None? || f.content.Unreadable? { return; }
      TakeOverride(f.content);
    }

    /** The fields that convert, in order. */
    method TakeOverride(o: Override)
      requires o.Override?
      modifies this
      ensures Snapshot() == TakeFields(old(Snapshot()), boot, o)
    {
      hide Allowed, TakeNumbers;
      var stopped := TakeNumberFields(o);
      if stopped { return; }
      if o.saturateMax.Some? { saturateMax := o.saturateMax.value; }
      if o.kSet.Bad? { return; }
      if o.kSet.Value? { kSet := Allowed(boot, o.kSet.v); }
      state, hist := map[], map[];
    }

    method TakeNumberFields(o: Override) returns (stopped: bool)
      requires o.Override?
      modifies this`enabled, this`alpha, this`margin, this`minSteps
      ensures (Snapshot(), stopped) == TakeNumbers(old(Snapshot()), o)
    {
      stopped := true;
      enabled := o.emaMode;
      if o.alpha.Bad? { return; }
      if o.alpha.Value? { alpha := o.alpha.v; }
      if o.margin.Bad? { return; }
      if o.margin.Value? { margin := o.margin.v; }
      if o.minSteps.Bad? { return; }
      if o.minSteps.Value? { minSteps := o.minSteps.v; }
      stopped := false;
    }

    method ObserveStep(id: ReqId, numDraft: int, numAccepted: int)
      requires Valid()
      modifies this`state
      ensures Snapshot() == Observe(old(Snapshot()), boot, id, numDraft, numAccepted) && Valid()
    {
      if !enabled || numDraft <= 0 { return; }
      var obs;
      if numAccepted >= numDraft && saturateMax {
        obs := Max(boot.KMax(), numDraft);
      } else {
        obs := numAccepted;
      }
      if id !in state {
        state := state[id := Ema(Blend(obs as real, boot.KMax() as real, alpha), 1)];
      } else {
        state := state[id := Ema(Blend(obs as real, state[id].value, alpha), state[id].steps + 1)];
      }
    }

    method Count(n: int, live: set<ReqId>)
      requires Valid()
      modifies this`hist, this`steps, this`state
      ensures Snapshot() == CountStep(old(Snapshot()), boot, n, live) && Valid()
    {
      hist := hist[n := (if n in hist then hist[n] else 0) + 1];
      steps := steps + 1;
      if boot.histEvery > 0 && steps % boot.histEvery == 0 {
        state := map id | id in state && id in live :: state[id];
      }
    }

    /** Trim every request of the batch to the one chosen width. */
    method ApplyStep(reqs: seq<Entry>, live: set<ReqId>, f: File)
      requires Valid()
      requires Apart(reqs)
      modifies this, set i | 0 <= i < |reqs| :: reqs[i].request
      ensures Valid()
      ensures Opened(old(Snapshot()), boot, f).kSet != []
      ensures Snapshot() == Apply(old(Snapshot()), boot, old(RowsOf(reqs)), live, f)
      ensures var p, rows := Opened(old(Snapshot()), boot, f), old(RowsOf(reqs));
              forall i | 0 <= i < |reqs| :: reqs[i].request.specTokenIds ==
                if p.enabled then Trimmed(old(reqs[i].request.specTokenIds), Width(p, boot, rows))
                else old(reqs[i].request.specTokenIds)
    {
      hide Sound, Reload, Width, CountStep, Trimmed;
      ApplyKeepsSound(Snapshot(), boot, RowsOf(reqs), live, f);
      ghost var rows := RowsOf(reqs);
      if steps % 50 == 0 { ReloadFile(f); }
      assert RowsOf(reqs) == rows;
      if !enabled || reqs == [] {
        steps := steps + 1;
        return;
      }
      var n := Width(Snapshot(), boot, RowsOf(reqs));
      TrimAll(reqs, n);
      Count(n, live);
    }

    /** The policy's part of `update_draft_token_ids`: collect, then trim what was collected.
        Requests that were not collected keep their drafts. */
    method UpdateDraftTokenIds(reqs: seq<Entry>, live: set<ReqId>, f: File)
      requires Valid()
      requires Apart(reqs)
      modifies this, set i | 0 <= i < |reqs| :: reqs[i].request
      ensures Valid() && Opened(old(Snapshot()), boot, f).kSet != []
      ensures Snapshot() == UpdateDrafts(old(Snapshot()), boot, old(RowsOf(reqs)), live, f)
      ensures var p, rows := Opened(old(Snapshot()), boot, f), Gated(old(Snapshot()), old(RowsOf(reqs)));
              forall i | 0 <= i < |reqs| :: reqs[i].request.specTokenIds ==
                if old(enabled) && p.enabled && old(|reqs[i].request.specTokenIds|) > 0
                then Trimmed(old(reqs[i].request.specTokenIds), Width(p, boot, rows))
                else old(reqs[i].request.specTokenIds)
    {
      hide Sound, Width, Trimmed, Apply, Opened, Gated, RowsOf, Apart;
      ApplyKeepsSound(Snapshot(), boot, [], live, f);
      RowsOfGated(Snapshot(), reqs);
      GatedApart(enabled, reqs);
      var akReqs := GatedEntries(enabled, reqs);
      NoRowsIff(akReqs);
      forall i | 0 <= i < |reqs|
        ensures Lists(akReqs, reqs[i].request) <==> enabled && |reqs[i].request.specTokenIds| > 0
      {
        GatedLists(enabled, reqs, i);
      }
      hide GatedEntries, RowOf;
      if akReqs != [] {
        ApplyStep(akReqs, live, f);
      }
    }

    method TrimAll(reqs: seq<Entry>, n: int)
      requires Apart(reqs)
      modifies set i | 0 <= i < |reqs| :: reqs[i].request`specTokenIds
      ensures forall i | 0 <= i < |reqs| ::
        reqs[i].request.specTokenIds == Trimmed(old(reqs[i].request.specTokenIds), n)
    {
      for j := 0 to |reqs|
        invariant forall i | 0 <= i < |reqs| ::
          reqs[i].request.specTokenIds ==
          if i < j then Trimmed(old(reqs[i].request.specTokenIds), n) else old(reqs[i].request.specTokenIds)
      {
        var r := reqs[j].request;
        if |r.specTokenIds| > n {
          r.specTokenIds := Prefix(r.specTokenIds, n);
        }
      }
    }
  }

  function Booted(boot: Boot, alpha: real, margin: real, minSteps: int, saturateMax: bool): Policy {
    Policy(boot.enabled, alpha, margin, minSteps, boot.kSet, saturateMax, map[], map[], 0, None)
  }

  /** What every step keeps: candidates are a non-empty choice of the boot list, and the policy
      is only ever on when it was on at boot. */
  ghost predicate Sound(p: Policy, boot: Boot) {
    && p.kSet != [] && boot.kSet != []
    && SubList(p.kSet, boot)
    && (p.enabled ==> boot.enabled)
  }

  lemma {:induction false} ReloadKeepsSound(p: Policy, boot: Boot, f: File)
    requires Sound(p, boot)
    ensures Sound(Reload(p, boot, f), boot)
  {
    OwnList(boot);
    hide SubList, Allowed, TakeNumbers;
  }

  lemma {:induction false} OwnList(boot: Boot)
    ensures SubList(boot.kSet, boot)
  {
  }

  lemma {:induction false} SoundMeans(p: Policy, boot: Boot)
    requires Sound(p, boot)
    ensures p.kSet != [] && (p.enabled ==> boot.enabled)
  {
  }

  lemma {:induction false} ApplyKeepsSound(p: Policy, boot: Boot, rows: seq<Row>, live: set<ReqId>, f: File)
    requires Sound(p, boot)
    ensures Sound(Opened(p, boot, f), boot) && Opened(p, boot, f).kSet != []
    ensures Sound(Apply(p, boot, rows, live, f), boot)
  {
    hide Width, Reload;
    ReloadKeepsSound(p, boot, f);
  }

  lemma {:induction false} UpdateKeepsSound(p: Policy, boot: Boot, rows: seq<Row>, live: set<ReqId>, f: File)
    requires Sound(p, boot)
    ensures Sound(Opened(p, boot, f), boot) && Opened(p, boot, f).kSet != []
    ensures Sound(UpdateDrafts(p, boot, rows, live, f), boot)
  {
    hide Apply, Opened;
    ApplyKeepsSound(p, boot, Gated(p, rows), live, f);
  }
}
