/** Verification of draft tokens by a deterministic target, and why trimming drafts cannot
    change what is emitted. */
module SpeculativeVerify {
  import opened AdaptiveK
  import opened Arith

  /** A deterministic target, any function of the context. */
  datatype Target = Target(choice: seq<Token> -> Token)

  /** The target's choice after a context. */
  function Next(next: Target, ctx: seq<Token>): Token {
    next.choice(ctx)
  }

  /** How many leading drafts the target agrees with. */
  function Accepted(next: Target, ctx: seq<Token>, draft: seq<Token>): (a: nat)
    ensures a <= |draft|
    decreases |draft|
  {
    if draft == [] || draft[0] != Next(next, ctx) then 0
    else 1 + Accepted(next, ctx + [draft[0]], draft[1..])
  }

  /** One verification step: the agreed drafts and one token of the target's own. */
  function Emit(next: Target, ctx: seq<Token>, draft: seq<Token>): (out: seq<Token>)
    ensures |out| == Accepted(next, ctx, draft) + 1
  {
    var a := Accepted(next, ctx, draft);
    draft[..a] + [Next(next, ctx + draft[..a])]
  }

  /** Decoding without drafts, one token at a time. */
  function Greedy(next: Target, ctx: seq<Token>, n: nat): (out: seq<Token>)
    ensures |out| == n
    decreases n
  {
    if n == 0 then [] else [Next(next, ctx)] + Greedy(next, ctx + [Next(next, ctx)], n - 1)
  }

  /** The accepted count is the longest match: each accepted draft is the target's choice after
      those before it, and the draft behind them is not. */
  lemma {:induction false} AcceptedIsLongestMatch(next: Target, ctx: seq<Token>, draft: seq<Token>)
    ensures var a := Accepted(next, ctx, draft);
            && (forall i | 0 <= i < a :: draft[i] == next.choice(ctx + draft[..i]))
            && (a < |draft| ==> draft[a] != next.choice(ctx + draft[..a]))
    decreases |draft|
  {
    assert ctx + draft[..0] == ctx;
    if draft != [] && draft[0] == Next(next, ctx) {
      var rest, ctx' := draft[1..], ctx + [draft[0]];
      AcceptedIsLongestMatch(next, ctx', rest);
      forall i | 0 <= i < |draft| ensures i > 0 ==> ctx + draft[..i] == ctx' + rest[..i - 1] {
      }
    }
  }

  /** Greedy decoding emits the target's choice after everything emitted so far. */
  lemma {:induction false} GreedyEach(next: Target, ctx: seq<Token>, n: nat, i: nat)
    requires i < n
    ensures Greedy(next, ctx, n)[i] == next.choice(ctx + Greedy(next, ctx, n)[..i])
    decreases n
  {
    var t := Next(next, ctx);
    if i == 0 {
      assert ctx + Greedy(next, ctx, n)[..0] == ctx;
    } else {
      GreedyEach(next, ctx + [t], n - 1, i - 1);
      assert ctx + Greedy(next, ctx, n)[..i] == ctx + [t] + Greedy(next, ctx + [t], n - 1)[..i - 1];
    }
  }

  lemma {:induction false} EmitIsGreedy(next: Target, ctx: seq<Token>, draft: seq<Token>)
    ensures Emit(next, ctx, draft) == Greedy(next, ctx, |Emit(next, ctx, draft)|)
    decreases |draft|
  {
    if draft == [] || draft[0] != Next(next, ctx) {
      assert ctx + draft[..0] == ctx;
      assert Greedy(next, ctx, 1) == [Next(next, ctx)] + Greedy(next, ctx + [Next(next, ctx)], 0);
    } else {
      var a, rest, ctx' := Accepted(next, ctx, draft), draft[1..], ctx + [draft[0]];
      EmitIsGreedy(next, ctx', rest);
      assert draft[..a] == [draft[0]] + rest[..a - 1];
      assert ctx + draft[..a] == ctx' + rest[..a - 1];
      assert Emit(next, ctx, draft) == [draft[0]] + Emit(next, ctx', rest);
    }
  }

  lemma {:induction false} GreedyConcat(next: Target, ctx: seq<Token>, m: nat, n: nat)
    ensures Greedy(next, ctx, m + n) == Greedy(next, ctx, m) + Greedy(next, ctx + Greedy(next, ctx, m), n)
    decreases m
  {
    if m == 0 {
      assert ctx + Greedy(next, ctx, 0) == ctx;
    } else {
      var t := Next(next, ctx);
      GreedyConcat(next, ctx + [t], m - 1, n);
      assert ctx + Greedy(next, ctx, m) == ctx + [t] + Greedy(next, ctx + [t], m - 1);
    }
  }

  /** Verifying a shorter prefix of the drafts agrees with it as far as it reaches. */
  lemma {:induction false} AcceptedOfPrefix(next: Target, ctx: seq<Token>, draft: seq<Token>, n: nat)
    requires n <= |draft|
    ensures Accepted(next, ctx, draft[..n]) == Min(n, Accepted(next, ctx, draft))
    decreases n
  {
    if n > 0 && draft[0] == Next(next, ctx) {
      AcceptedOfPrefix(next, ctx + [draft[0]], draft[1..], n - 1);
      assert draft[..n][1..] == draft[1..][..n - 1];
    }
  }

  /** One step of trimming only delays tokens: it emits a prefix of what the untrimmed step
      emits, one token longer than the smaller of the drafts left and the accepted count. */
  lemma {:induction false} TrimmedStepIsPrefix(next: Target, ctx: seq<Token>, draft: seq<Token>, n: int)
    ensures var short, full := Emit(next, ctx, Trimmed(draft, n)), Emit(next, ctx, draft);
            short <= full && |short| == Min(|Trimmed(draft, n)|, Accepted(next, ctx, draft)) + 1
  {
    var k := |Trimmed(draft, n)|;
    assert Trimmed(draft, n) == draft[..k];
    AcceptedOfPrefix(next, ctx, draft, k);
    EmitIsGreedy(next, ctx, draft);
    EmitIsGreedy(next, ctx, draft[..k]);
    var short, full := |Emit(next, ctx, draft[..k])|, |Emit(next, ctx, draft)|;
    GreedyConcat(next, ctx, short, full - short);
  }

  // A whole request, served under the policy.

  /** One decode round: what the drafter proposed, the rest of the batch, and the outside
      world's part of the policy step. */
  datatype Round = Round(draft: seq<Token>, structured: bool, others: seq<Row>, live: set<ReqId>, file: File)

  datatype Serving = Serving(policy: Policy, emitted: seq<Token>)

  /** The drafts of the request that reach the verifier: trimmed when the policy was on, the
      request had drafts, and the reload did not turn the policy off. */
  function RoundDraft(p: Policy, boot: Boot, id: ReqId, r: Round): seq<Token>
    requires Sound(p, boot)
  {
    var rows := Gated(p, RoundRows(id, r));
    UpdateKeepsSound(p, boot, rows, r.live, r.file);
    var q := Opened(p, boot, r.file);
    if rows != [] && |r.draft| > 0 && q.enabled then Trimmed(r.draft, Width(q, boot, rows)) else r.draft
  }

  function RoundRows(id: ReqId, r: Round): seq<Row> {
    [Row(id, |r.draft|, r.structured)] + r.others
  }

  function ServeRound(next: Target, boot: Boot, id: ReqId, ctx: seq<Token>, s: Serving, r: Round): (t: Serving)
    requires Sound(s.policy, boot)
    ensures Sound(t.policy, boot) && |t.emitted| > |s.emitted|
  {
    UpdateKeepsSound(s.policy, boot, RoundRows(id, r), r.live, r.file);
    var draft := RoundDraft(s.policy, boot, id, r);
    var out := Emit(next, ctx + s.emitted, draft);
    var after := UpdateDrafts(s.policy, boot, RoundRows(id, r), r.live, r.file);
    Serving(Observe(after, boot, id, |draft|, |out| - 1), s.emitted + out)
  }

  function Serve(next: Target, boot: Boot, id: ReqId, ctx: seq<Token>, p: Policy, rounds: seq<Round>): (t: Serving)
    requires Sound(p, boot)
    ensures Sound(t.policy, boot) && |t.emitted| >= |rounds|
  {
    if rounds == [] then Serving(p, [])
    else ServeRound(next, boot, id, ctx, Serve(next, boot, id, ctx, p, rounds[..|rounds| - 1]), rounds[|rounds| - 1])
  }

  /** A run starts with nothing emitted and serves its rounds in order, each from where the one
      before it left policy and stream. */
  lemma {:induction false} ServeNext(
    next: Target, boot: Boot, id: ReqId, ctx: seq<Token>, p: Policy, rounds: seq<Round>, r: Round)
    requires Sound(p, boot)
    ensures Serve(next, boot, id, ctx, p, []) == Serving(p, [])
    ensures Serve(next, boot, id, ctx, p, rounds + [r])
            == ServeRound(next, boot, id, ctx, Serve(next, boot, id, ctx, p, rounds), r)
  {
    assert (rounds + [r])[..|rounds|] == rounds;
    hide ServeRound, Sound;
  }

  /** Whatever the policy does, the request's stream is plain greedy decoding. */
  lemma {:induction false} ServedStreamIsGreedy(
    next: Target, boot: Boot, id: ReqId, ctx: seq<Token>, p: Policy, rounds: seq<Round>)
    requires Sound(p, boot)
    ensures var out := Serve(next, boot, id, ctx, p, rounds).emitted;
            out == Greedy(next, ctx, |out|)
    decreases |rounds|
  {
    hide Sound, RoundDraft, UpdateDrafts, Observe;
    if rounds == [] {
    } else {
      var s := Serve(next, boot, id, ctx, p, rounds[..|rounds| - 1]);
      ServedStreamIsGreedy(next, boot, id, ctx, p, rounds[..|rounds| - 1]);
      var t := Serve(next, boot, id, ctx, p, rounds);
      var out := t.emitted[|s.emitted|..];
      assert exists d :: out == Emit(next, ctx + s.emitted, d) by {
        RoundEmits(next, boot, id, ctx, s, rounds[|rounds| - 1]);
      }
      var d :| out == Emit(next, ctx + s.emitted, d);
      EmitIsGreedy(next, ctx + s.emitted, d);
      GreedyConcat(next, ctx, |s.emitted|, |out|);
      assert t.emitted == s.emitted + out by {
        RoundEmits(next, boot, id, ctx, s, rounds[|rounds| - 1]);
      }
    }
  }

  lemma {:induction false} RoundEmits(next: Target, boot: Boot, id: ReqId, ctx: seq<Token>, s: Serving, r: Round)
    requires Sound(s.policy, boot)
    ensures var t := ServeRound(next, boot, id, ctx, s, r);
            && |t.emitted| >= |s.emitted|
            && t.emitted == s.emitted + t.emitted[|s.emitted|..]
            && exists d :: t.emitted[|s.emitted|..] == Emit(next, ctx + s.emitted, d)
  {
    var draft := RoundDraft(s.policy, boot, id, r);
    var t := ServeRound(next, boot, id, ctx, s, r);
    assert t.emitted[|s.emitted|..] == Emit(next, ctx + s.emitted, draft);
  }

  /** What one round verifies and emits: the drafts as the policy's update leaves them, and of these
      as many as the target agrees with, and one token more; the policy then observes just that. */
  lemma {:induction false} RoundVerifies(next: Target, boot: Boot, id: ReqId, ctx: seq<Token>, s: Serving, r: Round)
    requires Sound(s.policy, boot) && Sound(Opened(s.policy, boot, r.file), boot)
    ensures var t, q := ServeRound(next, boot, id, ctx, s, r), Opened(s.policy, boot, r.file);
            var rows := [Row(id, |r.draft|, r.structured)] + r.others;
            var trims := s.policy.enabled && q.enabled && r.draft != [];
            && (trims ==> Gated(s.policy, rows) != [])
            && var kept := if trims then Trimmed(r.draft, Width(q, boot, Gated(s.policy, rows))) else r.draft;
            && |t.emitted| == |s.emitted| + Min(|kept|, Accepted(next, ctx + s.emitted, r.draft)) + 1
            && t.policy == Observe(UpdateDrafts(s.policy, boot, rows, r.live, r.file), boot, id, |kept|,
                                   |t.emitted| - |s.emitted| - 1)
  {
    hide Opened, Width, Gated, UpdateDrafts, Observe;
    var rows := [Row(id, |r.draft|, r.structured)] + r.others;
    assert rows[0] in rows;
    GatedEmptyIff(s.policy, rows);
    var kept := RoundDraft(s.policy, boot, id, r);
    assert kept == r.draft[..|kept|];
    AcceptedOfPrefix(next, ctx + s.emitted, r.draft, |kept|);
  }

  /** Two servings of one request, under any two policies, drafters and batches, agree on every
      token both have emitted. */
  lemma {:induction false} PolicyNeverChangesOutput(
    next: Target, id: ReqId, ctx: seq<Token>,
    boot0: Boot, p0: Policy, rounds0: seq<Round>, boot1: Boot, p1: Policy, rounds1: seq<Round>)
    requires Sound(p0, boot0) && Sound(p1, boot1)
    ensures var a := Serve(next, boot0, id, ctx, p0, rounds0).emitted;
            var b := Serve(next, boot1, id, ctx, p1, rounds1).emitted;
            a <= b || b <= a
  {
    ServedStreamIsGreedy(next, boot0, id, ctx, p0, rounds0);
    ServedStreamIsGreedy(next, boot1, id, ctx, p1, rounds1);
    hide Serve, Greedy, Sound;
    var m := |Serve(next, boot0, id, ctx, p0, rounds0).emitted|;
    var n := |Serve(next, boot1, id, ctx, p1, rounds1).emitted|;
    if m <= n { GreedyPrefix(next, ctx, m, n); } else { GreedyPrefix(next, ctx, n, m); }
  }

  lemma {:induction false} GreedyPrefix(next: Target, ctx: seq<Token>, m: nat, n: nat)
    requires m <= n
    ensures Greedy(next, ctx, m) <= Greedy(next, ctx, n)
  {
    GreedyConcat(next, ctx, m, n - m);
  }
}
