/** Structured-output grammars under speculative batches: accept, validate, reset and the
    manager's token window, over an arbitrary token automaton. */
module GrammarMatcher {
  import opened Wrappers

  type Token = int

  /** Grammar states are numbered. */
  type S = nat

  /** The compiled grammar: a partial step function and the states that end the output. */
  datatype Automaton = Automaton(init: S, step: (S, Token) -> Option<S>, terminated: S -> bool) {
    /** An output of a live grammar needs at least one token. */
    predicate Live() { !terminated(init) }

    /** Nothing is accepted after the output has ended. */
    ghost predicate Closed() { forall s: S, t: Token :: terminated(s) ==> step(s, t).None? }
  }

  /** The state after one token, if the grammar allows it. */
  function Next(a: Automaton, s: S, t: Token): Option<S> {
    a.step(s, t)
  }

  /** Whether the output ends in this state. */
  predicate Ends(a: Automaton, s: S) {
    a.terminated(s)
  }

  // What a token list does, as a walk through states.

  /** The states entered until a token is rejected or the output ends. */
  function Walk(a: Automaton, s: S, tokens: seq<Token>): (w: seq<S>)
    ensures |w| <= |tokens|
    decreases |tokens|
  {
    if tokens == [] then []
    else
      match Next(a, s, tokens[0])
      case None => []
      case Some(s') => [s'] + (if Ends(a, s') then [] else Walk(a, s', tokens[1..]))
  }

  /** Whether no token was rejected before the output ended. */
  predicate Succeeds(a: Automaton, s: S, tokens: seq<Token>)
    decreases |tokens|
  {
    tokens == [] ||
    match Next(a, s, tokens[0])
    case None => false
    case Some(s') => Ends(a, s') || Succeeds(a, s', tokens[1..])
  }

  function Last(s: S, w: seq<S>): S {
    if w == [] then s else w[|w| - 1]
  }

  /** Walking one token further. */
  lemma {:induction false} WalkSnoc(a: Automaton, s: S, tokens: seq<Token>, t: Token)
    requires Succeeds(a, s, tokens) && !Ends(a, Last(s, Walk(a, s, tokens)))
    ensures |Walk(a, s, tokens)| == |tokens|
    ensures var l := Last(s, Walk(a, s, tokens));
            && Walk(a, s, tokens + [t]) == Walk(a, s, tokens) + Walk(a, l, [t])
            && Succeeds(a, s, tokens + [t]) == Succeeds(a, l, [t])
    decreases |tokens|
  {
    hide Next, Ends, Walk, Succeeds, Last;
    FullWalk(a, s, tokens);
    WalkConcat(a, s, tokens, [t]);
  }

  lemma {:induction false} FullWalk(a: Automaton, s: S, tokens: seq<Token>)
    requires Succeeds(a, s, tokens) && !Ends(a, Last(s, Walk(a, s, tokens)))
    ensures |Walk(a, s, tokens)| == |tokens|
    decreases |tokens|
  {
    hide Next, Ends, Walk, Succeeds, Last;
    if tokens == [] {
      NoTokens(a, s, tokens);
    } else {
      FirstAccepted(a, s, tokens);
      WalkFirst(a, s, tokens);
      FullWalk(a, Next(a, s, tokens[0]).value, tokens[1..]);
    }
  }

  /** A walk that ended or was rejected is not changed by more tokens. */
  lemma {:induction false} WalkStops(a: Automaton, s: S, tokens: seq<Token>, more: seq<Token>)
    requires !Ends(a, s)
    requires !Succeeds(a, s, tokens) || Ends(a, Last(s, Walk(a, s, tokens)))
    ensures Walk(a, s, tokens + more) == Walk(a, s, tokens)
    ensures Succeeds(a, s, tokens + more) == Succeeds(a, s, tokens)
    decreases |tokens|
  {
    hide Next, Ends;
    if tokens == [] {
      assert false;
    } else {
      assert (tokens + more)[0] == tokens[0] && (tokens + more)[1..] == tokens[1..] + more;
      match Next(a, s, tokens[0])
      case None =>
      case Some(s') =>
        if !Ends(a, s') {
          assert Last(s, Walk(a, s, tokens)) == Last(s', Walk(a, s', tokens[1..]));
          WalkStops(a, s', tokens[1..], more);
        }
    }
  }

  /** The walk reaches the longest acceptable prefix: it stops only where the output ends, the
      tokens run out, or the next token is rejected; and that prefix succeeds in full. */
  lemma {:induction false} WalkIsLongest(a: Automaton, s: S, tokens: seq<Token>)
    requires !Ends(a, s)
    ensures var n := |Walk(a, s, tokens)|;
            && Succeeds(a, s, tokens[..n]) && Walk(a, s, tokens[..n]) == Walk(a, s, tokens)
            && (n < |tokens| ==> Ends(a, Last(s, Walk(a, s, tokens)))
                                 || Next(a, Last(s, Walk(a, s, tokens)), tokens[n]).None?)
    decreases |tokens|
  {
    hide Next, Ends;
    if tokens == [] {
    } else {
      match Next(a, s, tokens[0])
      case None =>
      case Some(s') =>
        var n := |Walk(a, s, tokens)|;
        assert tokens[..n][1..] == tokens[1..][..n - 1];
        if !Ends(a, s') {
          WalkIsLongest(a, s', tokens[1..]);
          assert Last(s, Walk(a, s, tokens)) == Last(s', Walk(a, s', tokens[1..]));
        }
    }
  }

  /** In the automaton's own terms: `path` is the run of the longest prefix of the tokens whose steps
      exist, ended early only where the output ends. */
  ghost predicate LongestRun(a: Automaton, path: seq<S>, tokens: seq<Token>) {
    && 1 <= |path| <= |tokens| + 1
    && (forall i | 1 <= i < |path| :: a.step(path[i - 1], tokens[i - 1]) == Some(path[i]))
    && (forall i | 0 <= i < |path| - 1 :: !a.terminated(path[i]))
    && (|path| <= |tokens| ==>
        a.terminated(path[|path| - 1]) || a.step(path[|path| - 1], tokens[|path| - 1]).None?)
  }

  lemma {:induction false} WalkIsRun(a: Automaton, s: S, tokens: seq<Token>)
    requires !a.terminated(s)
    ensures var path := [s] + Walk(a, s, tokens);
            && LongestRun(a, path, tokens)
            && (Succeeds(a, s, tokens) <==> |path| == |tokens| + 1 || a.terminated(path[|path| - 1]))
    decreases |tokens|
  {
    if tokens != [] && a.step(s, tokens[0]).Some? {
      var s' := a.step(s, tokens[0]).value;
      if !a.terminated(s') {
        WalkIsRun(a, s', tokens[1..]);
        var path, rest := [s] + Walk(a, s, tokens), [s'] + Walk(a, s', tokens[1..]);
        assert path == [s] + rest;
        assert forall j | 1 <= j < |path| :: path[j] == rest[j - 1];
        assert forall j | 1 <= j < |tokens| :: tokens[j] == tokens[1..][j - 1];
      }
    }
  }

  // The grammar object's state, as a value.

  /** The matcher's stack of states, the number of tokens taken, and the cached flag. */
  datatype GrammarState = GrammarState(trail: seq<S>, processed: nat, flag: bool)

  ghost predicate Consistent(a: Automaton, g: GrammarState) {
    && g.trail != [] && g.processed == |g.trail| - 1
    && g.flag == Ends(a, g.trail[|g.trail| - 1])
  }

  function Top(g: GrammarState): S
    requires g.trail != []
  {
    g.trail[|g.trail| - 1]
  }

  function Accepting(a: Automaton, g: GrammarState, tokens: seq<Token>): (GrammarState, bool)
    requires g.trail != []
  {
    if g.flag then (g, true)
    else
      var w := Walk(a, Top(g), tokens);
      (GrammarState(g.trail + w, g.processed + |w|, Ends(a, Last(Top(g), w))), Succeeds(a, Top(g), tokens))
  }

  function Validated(a: Automaton, g: GrammarState, tokens: seq<Token>): seq<Token>
    requires g.trail != []
  {
    if g.flag then [] else tokens[..|Walk(a, Top(g), tokens)|]
  }

  /** Accepting and validating, step by step of the automaton: a finished output takes nothing and
      succeeds; an open one is moved along the longest run from where it stands, whose tokens are
      also what validation returns. */
  lemma {:induction false} AcceptFollowsAutomaton(a: Automaton, g: GrammarState, tokens: seq<Token>)
    requires g.trail != [] && g.flag == a.terminated(g.trail[|g.trail| - 1])
    ensures var (h, ok) := Accepting(a, g, tokens);
            if g.flag then h == g && ok && Validated(a, g, tokens) == []
            else
              var from, n := |g.trail| - 1, |h.trail| - |g.trail|;
              && 0 <= n <= |tokens| && h.trail[..from + 1] == g.trail && h.processed == g.processed + n
              && Validated(a, g, tokens) == tokens[..n]
              && LongestRun(a, h.trail[from..], tokens)
              && h.flag == a.terminated(h.trail[from + n])
              && (ok <==> n == |tokens| || h.flag)
  {
    if !g.flag {
      var w, from := Walk(a, Top(g), tokens), |g.trail| - 1;
      WalkIsRun(a, Top(g), tokens);
      assert (g.trail + w)[from..] == [Top(g)] + w;
      assert Last(Top(g), w) == ([Top(g)] + w)[|w|];
      hide Walk, Succeeds, Last, LongestRun;
    }
  }

  lemma {:induction false} AcceptKeepsConsistent(a: Automaton, g: GrammarState, tokens: seq<Token>)
    requires Consistent(a, g)
    ensures Consistent(a, Accepting(a, g, tokens).0)
  {
  }

  /** What validation returns is accepted in full, token for token, and one token more is not. */
  lemma {:induction false} ValidatedIsAccepted(a: Automaton, g: GrammarState, tokens: seq<Token>)
    requires Consistent(a, g)
    ensures var v := Validated(a, g, tokens);
            var (h, ok) := Accepting(a, g, v);
            && v <= tokens && ok && h.processed == g.processed + |v|
            && h == Accepting(a, g, tokens).0
            && (|v| < |tokens| ==> h.flag || Accepting(a, h, [tokens[|v|]]) == (h, false))
  {
    hide Next, Ends, Walk, Succeeds, Last;
    if !g.flag {
      var s := Top(g);
      WalkIsLongest(a, s, tokens);
      var w := Walk(a, s, tokens);
      AppendTrail(g.trail, s, w, []);
      var h := Accepting(a, g, tokens).0;
      if |w| < |tokens| && !h.flag { Rejected(a, h, tokens[|w|]); }
    } else {
      assert Validated(a, g, tokens) == [];
    }
  }

  lemma {:induction false} Rejected(a: Automaton, g: GrammarState, t: Token)
    requires Consistent(a, g) && Next(a, Top(g), t).None?
    ensures g.flag || Accepting(a, g, [t]) == (g, false)
  {
    OneToken(a, Top(g), t);
    hide Next, Ends, Walk, Succeeds;
    assert g.trail + [] == g.trail;
  }

  /** Splitting an accepted batch does not matter. */
  lemma {:induction false} AcceptInTwoBatches(a: Automaton, g: GrammarState, first: seq<Token>, second: seq<Token>)
    requires Consistent(a, g) && Accepting(a, g, first).1
    ensures Accepting(a, g, first + second) == Accepting(a, Accepting(a, g, first).0, second)
    decreases |second|
  {
    hide Next, Ends, Walk, Succeeds, Last;
    if !g.flag {
      var s := Top(g);
      var l := Last(s, Walk(a, s, first));
      AppendTrail(g.trail, s, Walk(a, s, first), []);
      if Ends(a, l) {
        WalkStops(a, s, first, second);
      } else {
        WalkConcat(a, s, first, second);
        AppendTrail(g.trail, s, Walk(a, s, first), Walk(a, l, second));
      }
    }
  }

  lemma {:induction false} WalkConcat(a: Automaton, s: S, first: seq<Token>, second: seq<Token>)
    requires Succeeds(a, s, first) && !Ends(a, Last(s, Walk(a, s, first)))
    ensures var l := Last(s, Walk(a, s, first));
            && Walk(a, s, first + second) == Walk(a, s, first) + Walk(a, l, second)
            && Succeeds(a, s, first + second) == Succeeds(a, l, second)
    decreases |first|
  {
    hide Next, Ends, Walk, Succeeds, Last;
    if first == [] {
      NoTokens(a, s, first);
      assert [] + second == second && [] + Walk(a, s, second) == Walk(a, s, second);
    } else {
      FirstAccepted(a, s, first);
      var s' := Next(a, s, first[0]).value;
      WalkFirst(a, s, first);
      assert (first + second)[1..] == first[1..] + second && (first + second)[0] == first[0];
      WalkFirst(a, s, first + second);
      WalkConcat(a, s', first[1..], second);
      Assoc(s', Walk(a, s', first[1..]), Walk(a, Last(s, Walk(a, s, first)), second));
    }
  }

  lemma {:induction false} Assoc(s: S, v: seq<S>, w: seq<S>)
    ensures [s] + (v + w) == [s] + v + w
  {
  }

  lemma {:induction false} AppendTrail(g: seq<S>, s: S, v: seq<S>, w: seq<S>)
    ensures g + (v + w) == g + v + w && |v + w| == |v| + |w|
    ensures Last(s, v + w) == Last(Last(s, v), w)
    ensures g != [] && s == g[|g| - 1] ==> (g + v)[|g + v| - 1] == Last(s, v)
  {
  }

  lemma {:induction false} FirstAccepted(a: Automaton, s: S, tokens: seq<Token>)
    requires tokens != [] && Succeeds(a, s, tokens) && !Ends(a, Last(s, Walk(a, s, tokens)))
    ensures Next(a, s, tokens[0]).Some? && !Ends(a, Next(a, s, tokens[0]).value)
  {
    var s' := Next(a, s, tokens[0]).value;
    assert Ends(a, s') ==> Last(s, Walk(a, s, tokens)) == s';
  }

  /** A walk whose first token is accepted. */
  lemma {:induction false} WalkFirst(a: Automaton, s: S, tokens: seq<Token>)
    requires tokens != [] && Next(a, s, tokens[0]).Some?
    ensures var s' := Next(a, s, tokens[0]).value;
            if Ends(a, s') then Walk(a, s, tokens) == [s'] && Last(s, Walk(a, s, tokens)) == s'
            else && Walk(a, s, tokens) == [s'] + Walk(a, s', tokens[1..])
                 && Succeeds(a, s, tokens) == Succeeds(a, s', tokens[1..])
                 && Last(s, Walk(a, s, tokens)) == Last(s', Walk(a, s', tokens[1..]))
  {
    hide Next, Ends;
  }

  lemma {:induction false} NoTokens(a: Automaton, s: S, tokens: seq<Token>)
    ensures tokens[..0] == [] && tokens[..|tokens|] == tokens
    ensures Walk(a, s, []) == [] && Succeeds(a, s, []) && Last(s, []) == s
  {
  }

  // The behaviour before the backport.

  /** The states entered until a token is rejected; the end of the output is not noticed. */
  function OldWalk(a: Automaton, s: S, tokens: seq<Token>): (w: seq<S>)
    ensures |w| <= |tokens|
    decreases |tokens|
  {
    if tokens == [] || Next(a, s, tokens[0]).None? then []
    else
      var s' := Next(a, s, tokens[0]).value;
      [s'] + OldWalk(a, s', tokens[1..])
  }

  /** The flag is refreshed only after a batch that was accepted to its last token. */
  function OldAccepting(a: Automaton, g: GrammarState, tokens: seq<Token>): (GrammarState, bool)
    requires g.trail != []
  {
    if g.flag then (g, false)
    else
      var w := OldWalk(a, Top(g), tokens);
      var all := |w| == |tokens|;
      (GrammarState(g.trail + w, g.processed + |w|, if all then Ends(a, Last(Top(g), w)) else false), all)
  }

  lemma {:induction false} ClosedRejects(a: Automaton, s: S, t: Token)
    requires a.Closed() && Ends(a, s)
    ensures Next(a, s, t).None?
  {
  }

  lemma {:induction false} OldWalkIsWalk(a: Automaton, s: S, tokens: seq<Token>)
    requires a.Closed() && !Ends(a, s)
    ensures OldWalk(a, s, tokens) == Walk(a, s, tokens)
    ensures Succeeds(a, s, tokens) <==> |Walk(a, s, tokens)| == |tokens| || Ends(a, Last(s, Walk(a, s, tokens)))
    decreases |tokens|
  {
    if tokens != [] && Next(a, s, tokens[0]).Some? {
      var s' := Next(a, s, tokens[0]).value;
      if Ends(a, s') {
        if tokens[1..] != [] { ClosedRejects(a, s', tokens[1..][0]); }
        assert OldWalk(a, s', tokens[1..]) == [];
      } else {
        OldWalkIsWalk(a, s', tokens[1..]);
        assert Last(s, Walk(a, s, tokens)) == Last(s', Walk(a, s', tokens[1..]));
      }
    }
  }

  /** From a consistent state the old code does what the new code does exactly when the output is
      still open and no token follows the one that ends it. On a finished output the old code
      reports a failure where the new one succeeds; when a token follows the end it reports a
      failure and also leaves the flag saying that the output is still open. */
  lemma {:induction false} OldAgreesIffNothingFollowsTheEnd(a: Automaton, g: GrammarState, tokens: seq<Token>)
    requires a.Closed() && Consistent(a, g)
    ensures var w := Walk(a, Top(g), tokens);
            var follows := !g.flag && Ends(a, Last(Top(g), w)) && |w| < |tokens|;
            && (OldAccepting(a, g, tokens) == Accepting(a, g, tokens) <==> !g.flag && !follows)
            && (Consistent(a, OldAccepting(a, g, tokens).0) <==> !follows)
            && (g.flag ==> OldAccepting(a, g, tokens) == (g, false))
            && (follows ==> OldAccepting(a, g, tokens) == (Accepting(a, g, tokens).0.(flag := false), false))
  {
    if !g.flag { OldWalkIsWalk(a, Top(g), tokens); }
  }

  // The objects.

  class Matcher {
    const a: Automaton
    var trail: seq<S>

    constructor (a: Automaton)
      ensures this.a == a && trail == [a.init]
    {
      this.a, trail := a, [a.init];
    }

    method AcceptToken(t: Token) returns (ok: bool)
      requires trail != []
      modifies this
      ensures match Next(a, old(trail)[|old(trail)| - 1], t)
              case None => !ok && trail == old(trail)
              case Some(s) => ok && trail == old(trail) + [s]
    {
      var next := Next(a, trail[|trail| - 1], t);
      ok := next.Some?;
      if ok { trail := trail + [next.value]; }
    }

    predicate IsTerminated()
      requires trail != []
      reads this
    {
      Ends(a, trail[|trail| - 1])
    }

    method Rollback(n: nat)
      requires n < |trail|
      modifies this
      ensures trail == old(trail)[..|old(trail)| - n]
    {
      trail := trail[..|trail| - n];
    }

    method Reset()
      modifies this
      ensures trail == [a.init]
    {
      trail := [a.init];
    }
  }

  class Grammar {
    const matcher: Matcher
    var numProcessedTokens: nat
    var isTerminated: bool
    var errors: nat   // "failed to advance" log lines

    ghost function State(): GrammarState
      reads this, matcher
    {
      GrammarState(matcher.trail, numProcessedTokens, isTerminated)
    }

    ghost predicate Valid()
      reads this, matcher
    {
      Consistent(matcher.a, State())
    }

    constructor (m: Matcher)
      requires m.trail == [m.a.init]
      ensures matcher == m && State() == GrammarState([m.a.init], 0, false) && errors == 0
      ensures Valid() <==> m.a.Live()
    {
      matcher := m;
      numProcessedTokens, isTerminated, errors := 0, false, 0;
    }

    method AcceptTokens(tokens: seq<Token>) returns (ok: bool)
      requires Valid()
      modifies this, matcher
      ensures Valid()
      ensures (State(), ok) == Accepting(matcher.a, old(State()), tokens)
      ensures errors == old(errors) + if ok then 0 else 1
    {
      hide Next, Ends, Walk, Succeeds, Last;
      if isTerminated { return true; }
      ghost var a, s := matcher.a, Top(State());
      NoTokens(a, s, tokens);
      assert matcher.trail + [] == matcher.trail;
      for i := 0 to |tokens|
        invariant Valid() && !isTerminated && errors == old(errors)
        invariant Succeeds(a, s, tokens[..i]) && |Walk(a, s, tokens[..i])| == i
        invariant matcher.trail == old(matcher.trail) + Walk(a, s, tokens[..i])
        invariant Top(State()) == Last(s, Walk(a, s, tokens[..i]))
        invariant numProcessedTokens == old(numProcessedTokens) + i
      {
        StepFrom(a, s, tokens, i);
        var accepted := TakeToken(tokens[i]);
        if !accepted {
          errors := errors + 1;
          return false;
        }
        AppendTrail(old(matcher.trail), s, Walk(a, s, tokens[..i]), [Top(State())]);
        AppendTrail(old(matcher.trail), s, Walk(a, s, tokens[..i + 1]), []);
        if isTerminated { return true; }
      }
      return true;
    }

    /** Advance the matcher over one token and refresh the count and the flag. */
    method TakeToken(t: Token) returns (accepted: bool)
      requires Valid() && !isTerminated
      modifies this, matcher
      ensures Valid() && errors == old(errors)
      ensures match Next(matcher.a, Top(old(State())), t)
              case None => !accepted && State() == old(State())
              case Some(s) => accepted && matcher.trail == old(matcher.trail) + [s]
                              && numProcessedTokens == old(numProcessedTokens) + 1
    {
      accepted := matcher.AcceptToken(t);
      if accepted {
        numProcessedTokens := numProcessedTokens + 1;
        isTerminated := matcher.IsTerminated();
      }
    }

    method ValidateTokens(tokens: seq<Token>) returns (accepted: seq<Token>)
      requires Valid()
      modifies matcher
      ensures Valid() && State() == old(State())
      ensures accepted == Validated(matcher.a, old(State()), tokens)
    {
      hide Next, Ends, Walk, Succeeds, Last;
      if isTerminated { return []; }
      ghost var a, s := matcher.a, Top(State());
      NoTokens(a, s, tokens);
      assert matcher.trail + [] == matcher.trail;
      accepted := [];
      var i := 0;
      while i < |tokens|
        invariant i <= |tokens| && accepted == tokens[..i] && matcher.trail != []
        invariant Succeeds(a, s, tokens[..i]) && |Walk(a, s, tokens[..i])| == i
        invariant matcher.trail == old(matcher.trail) + Walk(a, s, tokens[..i])
        invariant matcher.trail[|matcher.trail| - 1] == Last(s, Walk(a, s, tokens[..i]))
        invariant !matcher.IsTerminated()
      {
        StepFrom(a, s, tokens, i);
        var ok := matcher.AcceptToken(tokens[i]);
        if !ok { break; }
        accepted := accepted + [tokens[i]];
        i := i + 1;
        AppendTrail(old(matcher.trail), s, Walk(a, s, tokens[..i - 1]), [matcher.trail[|matcher.trail| - 1]]);
        AppendTrail(old(matcher.trail), s, Walk(a, s, tokens[..i]), []);
        if matcher.IsTerminated() { break; }
      }
      if |accepted| > 0 { matcher.Rollback(|accepted|); }
    }

    /** The flag is cleared unconditionally, which is right exactly for grammars whose empty output
        is not complete. */
    method Reset()
      modifies this, matcher
      ensures State() == GrammarState([matcher.a.init], 0, false)
      ensures Valid() <==> matcher.a.Live()
    {
      matcher.Reset();
      numProcessedTokens := 0;
      isTerminated := false;
    }
  }

  /** Taking token `i` after the first `i` succeeded without ending the output. */
  lemma {:induction false} StepFrom(a: Automaton, s: S, tokens: seq<Token>, i: nat)
    requires i < |tokens| && !Ends(a, s)
    requires Succeeds(a, s, tokens[..i]) && |Walk(a, s, tokens[..i])| == i
    requires !Ends(a, Last(s, Walk(a, s, tokens[..i])))
    ensures var l := Last(s, Walk(a, s, tokens[..i]));
            match Next(a, l, tokens[i])
            case None => !Succeeds(a, s, tokens) && Walk(a, s, tokens) == Walk(a, s, tokens[..i])
            case Some(s') =>
              && Succeeds(a, s, tokens[..i + 1])
              && Walk(a, s, tokens[..i + 1]) == Walk(a, s, tokens[..i]) + [s']
              && (Ends(a, s') ==> Succeeds(a, s, tokens) && Walk(a, s, tokens) == Walk(a, s, tokens[..i + 1]))
  {
    hide Next, Ends;
    WalkSnoc(a, s, tokens[..i], tokens[i]);
    assert tokens[..i] + [tokens[i]] == tokens[..i + 1];
    var l := Last(s, Walk(a, s, tokens[..i]));
    assert tokens[..i + 1] + tokens[i + 1..] == tokens;
    if Next(a, l, tokens[i]).None? || Ends(a, Next(a, l, tokens[i]).value) {
      WalkStops(a, s, tokens[..i + 1], tokens[i + 1..]);
    }
  }

  // The manager's window.

  /** One scheduled token: whether the grammar should advance over it, and whether it was
      drafted before the reasoning-end marker inside this window. */
  datatype Slot = Slot(token: Token, advance: bool, postReasoningEnd: bool)

  /** Where the window has got to: the grammar, the tokens it took, and whether the loop has
      ended in the assertion error. */
  datatype Progress = Progress(g: GrammarState, moved: nat, failed: bool)

  /** The first `n` slots, one after the other: an advancing slot is offered to an unfinished
      grammar, and a rejection is an error only outside the window's tolerant part. */
  function AfterSlots(a: Automaton, g: GrammarState, slots: seq<Slot>, n: nat): (p: Progress)
    requires g.trail != [] && n <= |slots|
    ensures p.g.trail != []
  {
    if n == 0 then Progress(g, 0, false)
    else
      var p, slot := AfterSlots(a, g, slots, n - 1), slots[n - 1];
      if p.failed || !slot.advance || p.g.flag then p
      else
        var (h, ok) := Accepting(a, p.g, [slot.token]);
        if ok then Progress(h, p.moved + 1, false) else Progress(p.g, p.moved, !slot.postReasoningEnd)
  }

  lemma {:induction false} FailureStays(a: Automaton, g: GrammarState, slots: seq<Slot>, n: nat, m: nat)
    requires g.trail != [] && n <= m <= |slots| && AfterSlots(a, g, slots, n).failed
    ensures AfterSlots(a, g, slots, m) == AfterSlots(a, g, slots, n)
    decreases m
  {
    if n == m {
    } else {
      FailureStays(a, g, slots, n, m - 1);
    }
  }

  /** What one more slot does, in the automaton's own terms, tolerant part or not: an advancing slot
      on an open output whose token has a step takes that step and is counted; one whose token has
      none changes nothing and is an error only outside the tolerant part; every other slot, and
      any slot after an error, does nothing. */
  lemma {:induction false} SlotFollowsAutomaton(a: Automaton, g: GrammarState, slots: seq<Slot>, n: nat)
    requires Consistent(a, g) && n < |slots|
    ensures AfterSlots(a, g, slots, 0) == Progress(g, 0, false)
    ensures var p, q, slot := AfterSlots(a, g, slots, n), AfterSlots(a, g, slots, n + 1), slots[n];
            var top := p.g.trail[|p.g.trail| - 1];
            if p.failed || !slot.advance || a.terminated(top) then q == p
            else match a.step(top, slot.token)
                 case Some(s) => q == Progress(GrammarState(p.g.trail + [s], p.g.processed + 1, a.terminated(s)),
                                               p.moved + 1, false)
                 case None => q == Progress(p.g, p.moved, !slot.postReasoningEnd)
  {
    AdvancementsAreMoves(a, g, slots, n);
    var p, slot := AfterSlots(a, g, slots, n), slots[n];
    var top := p.g.trail[|p.g.trail| - 1];
    OneToken(a, top, slot.token);
    hide Walk, Succeeds;
    assert AfterSlots(a, g, slots, 0) == Progress(g, 0, false);
  }

  /** Slot `i` advances, outside the tolerant part, and meets an open output that has no step for its
      token. */
  predicate Refused(a: Automaton, g: GrammarState, slots: seq<Slot>, i: nat)
    requires g.trail != [] && i < |slots|
  {
    var trail := AfterSlots(a, g, slots, i).g.trail;
    var top := trail[|trail| - 1];
    slots[i].advance && !slots[i].postReasoningEnd && !a.terminated(top) && a.step(top, slots[i].token).None?
  }

  /** One of the first `n` slots is refused. */
  ghost predicate SomeRefused(a: Automaton, g: GrammarState, slots: seq<Slot>, n: nat)
    requires g.trail != [] && n <= |slots|
  {
    exists i | 0 <= i < n :: Refused(a, g, slots, i)
  }

  lemma {:induction false} SomeRefusedNext(a: Automaton, g: GrammarState, slots: seq<Slot>, n: nat)
    requires g.trail != [] && n < |slots|
    ensures SomeRefused(a, g, slots, n + 1) <==> SomeRefused(a, g, slots, n) || Refused(a, g, slots, n)
  {
    hide Refused;
  }

  /** The window ends in the error if and only if some slot is refused. */
  lemma {:induction false} WindowFailsIff(a: Automaton, g: GrammarState, slots: seq<Slot>, n: nat)
    requires Consistent(a, g) && n <= |slots|
    ensures AfterSlots(a, g, slots, n).failed <==> SomeRefused(a, g, slots, n)
    decreases n
  {
    if n == 0 {
    } else {
      hide AfterSlots, SomeRefused, Consistent;
      WindowFailsIff(a, g, slots, n - 1);
      NextSlotFails(a, g, slots, n - 1);
      SomeRefusedNext(a, g, slots, n - 1);
    }
  }

  lemma {:induction false} NextSlotFails(a: Automaton, g: GrammarState, slots: seq<Slot>, n: nat)
    requires Consistent(a, g) && n < |slots|
    ensures AfterSlots(a, g, slots, n + 1).failed <==>
            AfterSlots(a, g, slots, n).failed || Refused(a, g, slots, n)
  {
    SlotFollowsAutomaton(a, g, slots, n);
    hide AfterSlots;
  }

  /** The counted advancements are the tokens the matcher really moved: undoing that many leads
      back to where the window started. */
  lemma {:induction false} AdvancementsAreMoves(a: Automaton, g: GrammarState, slots: seq<Slot>, n: nat)
    requires Consistent(a, g) && n <= |slots|
    ensures var p := AfterSlots(a, g, slots, n);
            && Consistent(a, p.g)
            && |p.g.trail| == |g.trail| + p.moved && p.g.processed == g.processed + p.moved
            && p.g.trail[..|g.trail|] == g.trail
            && (p.failed ==> exists i | 0 <= i < n :: slots[i].advance && !slots[i].postReasoningEnd)
    decreases n
  {
    if n == 0 {
    } else {
      AdvancementsAreMoves(a, g, slots, n - 1);
      var p := AfterSlots(a, g, slots, n - 1);
      if !p.g.flag { OneMove(a, p.g, slots[n - 1].token); }
      hide Accepting, Consistent;
      var q := AfterSlots(a, g, slots, n);
      if q.moved > p.moved { PrefixOfPrefix(g.trail, p.g.trail, q.g.trail); }
    }
  }

  lemma {:induction false} PrefixOfPrefix<T>(x: seq<T>, y: seq<T>, z: seq<T>)
    requires |x| <= |y| <= |z| && y[..|x|] == x && z[..|y|] == y
    ensures z[..|x|] == x
  {
    assert z[..|x|] == z[..|y|][..|x|];
  }

  lemma {:induction false} OneMove(a: Automaton, g: GrammarState, t: Token)
    requires Consistent(a, g) && !g.flag
    ensures var (h, ok) := Accepting(a, g, [t]);
            && Consistent(a, h)
            && (ok ==> |h.trail| == |g.trail| + 1 && h.processed == g.processed + 1 && h.trail[..|g.trail|] == g.trail)
  {
    OneToken(a, Top(g), t);
    hide Next, Ends, Walk, Succeeds;
  }

  /** The token loop. `failed` stands for the assertion error, which ends the loop. */
  method AdvanceWindow(g: Grammar, slots: seq<Slot>) returns (stateAdvancements: nat, failed: bool)
    requires g.Valid()
    modifies g, g.matcher
    ensures g.Valid()
    ensures Progress(g.State(), stateAdvancements, failed) == AfterSlots(g.matcher.a, old(g.State()), slots, |slots|)
    ensures g.errors == old(g.errors) + if failed then 1 else 0
  {
    hide Accepting;
    stateAdvancements, failed := 0, false;
    for i := 0 to |slots|
      invariant g.Valid() && g.errors == old(g.errors)
      invariant Progress(g.State(), stateAdvancements, false) == AfterSlots(g.matcher.a, old(g.State()), slots, i)
    {
      if slots[i].advance && !g.isTerminated {
        var accepted := AdvanceOne(g, slots[i]);
        if accepted {
          stateAdvancements := stateAdvancements + 1;
        } else if !slots[i].postReasoningEnd {
          failed := true;
          FailureStays(g.matcher.a, old(g.State()), slots, i + 1, |slots|);
          return;
        }
      }
    }
  }

  lemma {:induction false} OneToken(a: Automaton, s: S, t: Token)
    ensures Succeeds(a, s, [t]) == Next(a, s, t).Some?
    ensures Walk(a, s, [t]) == match Next(a, s, t) case None => [] case Some(s') => [s']
  {
    hide Next, Ends;
    assert [t][1..] == [];
  }

  /** One token: validated first when it predates the marker, so that it cannot fail loudly. */
  method AdvanceOne(g: Grammar, slot: Slot) returns (accepted: bool)
    requires g.Valid() && !g.isTerminated
    modifies g, g.matcher
    ensures g.Valid()
    ensures accepted == Accepting(g.matcher.a, old(g.State()), [slot.token]).1
    ensures g.State() == if accepted then Accepting(g.matcher.a, old(g.State()), [slot.token]).0 else old(g.State())
    ensures g.errors == old(g.errors) + if accepted || slot.postReasoningEnd then 0 else 1
  {
    hide Next, Ends;
    ghost var a, s := g.matcher.a, Top(g.State());
    OneToken(a, s, slot.token);
    if slot.postReasoningEnd {
      var valid := g.ValidateTokens([slot.token]);
      accepted := valid != [];
      if accepted { accepted := g.AcceptTokens([slot.token]); }
    } else {
      accepted := g.AcceptTokens([slot.token]);
    }
    assert old(g.matcher.trail) + [] == old(g.matcher.trail);
  }
}
