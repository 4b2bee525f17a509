/** Stop strings kept dormant while the model reasons: the windowed scan for the marker that ends
    the reasoning, one scan per detokenizer update. */
module ReasoningStops {
  import opened Wrappers
  import opened Arith

  /** `marker` ends at position `e` of `text`. */
  predicate EndsAt(text: string, marker: string, e: int) {
    |marker| <= e <= |text| && text[e - |marker|..e] == marker
  }

  /** An end is a place where the text splits right behind the marker. */
  lemma {:induction false} EndsAtIff(text: string, marker: string, e: int)
    ensures EndsAt(text, marker, e) <==>
            exists before: string, after: string :: text == before + marker + after && |before + marker| == e
  {
    if EndsAt(text, marker, e) {
      assert text == text[..e - |marker|] + marker + text[e..];
    }
  }

  ghost predicate Occurs(text: string, marker: string) {
    exists e: int :: EndsAt(text, marker, e)
  }

  /** The marker's first occurrence ends at `e`. */
  ghost predicate FirstEnd(text: string, marker: string, e: int) {
    EndsAt(text, marker, e) && forall x: int :: EndsAt(text, marker, x) ==> e <= x
  }

  lemma {:induction false} EndsAtExtends(text: string, more: string, marker: string, e: int)
    requires e <= |text|
    ensures EndsAt(text + more, marker, e) == EndsAt(text, marker, e)
  {
    if |marker| <= e {
      assert (text + more)[e - |marker|..e] == text[e - |marker|..e];
    }
  }

  /** `str.find(marker, from)`. */
  function Find(text: string, marker: string, from: nat): (idx: int)
    ensures idx == -1 || (from <= idx && EndsAt(text, marker, idx + |marker|))
    ensures forall e: int :: EndsAt(text, marker, e) && from + |marker| <= e ==> idx != -1 && idx + |marker| <= e
    decreases |text| - from
  {
    if from + |marker| > |text| then -1
    else if EndsAt(text, marker, from + |marker|) then from
    else Find(text, marker, from + 1)
  }

  /** The search finds the first split at or behind `from`, or says that there is none. */
  lemma {:induction false} FindIsFirst(text: string, marker: string, from: nat)
    ensures var idx := Find(text, marker, from);
            && (idx != -1 ==>
                exists before: string, after: string :: text == before + marker + after && from <= |before| == idx)
            && forall before: string, after: string | text == before + marker + after && from <= |before| ::
                 0 <= idx <= |before|
  {
    var idx := Find(text, marker, from);
    if idx != -1 { EndsAtIff(text, marker, idx + |marker|); }
    forall before: string, after: string | text == before + marker + after && from <= |before|
      ensures 0 <= idx <= |before|
    {
      EndsAtIff(text, marker, |before + marker|);
    }
  }

  function Window(marker: string, offset: nat): nat
    requires |marker| > 0
  {
    Max(0, offset - (|marker| - 1))
  }

  /** The first occurrence that ends past the offset ends at `e`. */
  ghost predicate FirstEndPast(text: string, marker: string, offset: nat, e: int) {
    EndsAt(text, marker, e) && offset < e && forall x: int :: EndsAt(text, marker, x) && offset < x ==> e <= x
  }

  /** What one scan sees: an occurrence that ends past the offset. */
  ghost predicate SeenPast(text: string, marker: string, offset: nat) {
    exists e: int :: EndsAt(text, marker, e) && offset < e
  }

  lemma {:induction false} FindSeesPast(text: string, marker: string, offset: nat)
    requires |marker| > 0
    ensures Find(text, marker, Window(marker, offset)) != -1 <==> SeenPast(text, marker, offset)
  {
    var from := Window(marker, offset);
    var idx := Find(text, marker, from);
    WindowFits(marker, offset, idx);
    hide Find, Window;
    assert idx != -1 ==> EndsAt(text, marker, idx + |marker|);
    forall e: int | EndsAt(text, marker, e) && offset < e ensures idx != -1 {
      WindowReaches(text, marker, offset, e);
    }
  }

  /** An occurrence found in the window ends past the offset. */
  lemma {:induction false} WindowFits(marker: string, offset: nat, idx: int)
    requires |marker| > 0
    ensures idx >= Window(marker, offset) ==> offset < idx + |marker|
  {
  }

  /** Every occurrence that ends past the offset starts in the window. */
  lemma {:induction false} WindowReaches(text: string, marker: string, offset: nat, e: int)
    requires |marker| > 0 && EndsAt(text, marker, e) && offset < e
    ensures Window(marker, offset) + |marker| <= e
  {
  }

  // Whole runs.

  /** One update: the text it adds and the offset its stop check starts at. */
  datatype Update = Update(chunk: string, offset: nat)

  function Text(us: seq<Update>, n: nat): string
    requires n <= |us|
  {
    if n == 0 then "" else Text(us, n - 1) + us[n - 1].chunk
  }

  /** Texts of runs concatenate, and one update's text is its chunk. */
  lemma {:induction false} TextOfTwoRuns(us: seq<Update>, vs: seq<Update>, u: Update)
    ensures Text([u], 1) == u.chunk
    ensures Text(us + vs, |us + vs|) == Text(us, |us|) + Text(vs, |vs|)
    decreases |vs|
  {
    TextOfPrefix([], [u], 0);
    if vs == [] {
      assert us + vs == us;
    } else {
      var rest, last := vs[..|vs| - 1], vs[|vs| - 1];
      TextOfTwoRuns(us, rest, u);
      TextOfPrefix(us + rest, [last], |us + rest|);
      TextOfPrefix(rest, [last], |rest|);
      assert us + vs == us + rest + [last] && vs == rest + [last];
    }
  }

  lemma {:induction false} TextOfPrefix(us: seq<Update>, vs: seq<Update>, n: nat)
    requires n <= |us|
    ensures Text(us + vs, n) == Text(us, n)
  {
    if n == 0 {
    } else {
      TextOfPrefix(us, vs, n - 1);
    }
  }

  /** Whether the guard has closed after the first `n` updates. */
  ghost predicate Closed(marker: string, us: seq<Update>, n: nat)
    requires n <= |us|
  {
    n > 0 && (Closed(marker, us, n - 1) || SeenPast(Text(us, n), marker, us[n - 1].offset))
  }

  /** Some update's scan covers position `e`: it starts before `e` and its text reaches `e`. */
  ghost predicate Covered(us: seq<Update>, n: nat, e: int)
    requires n <= |us|
  {
    exists k | 0 <= k < n :: us[k].offset < e <= |Text(us, k + 1)|
  }

  lemma {:induction false} TextGrows(us: seq<Update>, k: nat, n: nat, marker: string, e: int)
    requires k <= n <= |us| && e <= |Text(us, k)|
    ensures |Text(us, k)| <= |Text(us, n)| && EndsAt(Text(us, n), marker, e) == EndsAt(Text(us, k), marker, e)
    decreases n
  {
    if k == n {
    } else {
      TextGrows(us, k, n - 1, marker, e);
      EndsAtExtends(Text(us, n - 1), us[n - 1].chunk, marker, e);
    }
  }

  /** The guard closes exactly when some occurrence of the marker ends at a covered position,
      whatever the offsets. */
  lemma {:induction false} ClosedIffCovered(marker: string, us: seq<Update>, n: nat)
    requires n <= |us|
    ensures Closed(marker, us, n) <==> exists e: int :: EndsAt(Text(us, n), marker, e) && Covered(us, n, e)
    decreases n
  {
    if n == 0 {
    } else {
      ClosedIffCovered(marker, us, n - 1);
      forall e: int
        ensures EndsAt(Text(us, n), marker, e) && Covered(us, n, e) <==>
                (EndsAt(Text(us, n - 1), marker, e) && Covered(us, n - 1, e))
                || (EndsAt(Text(us, n), marker, e) && us[n - 1].offset < e)
      {
        CoveredStep(marker, us, n, e);
      }
      hide EndsAt, Covered, Text;
      if Closed(marker, us, n) {
        if Closed(marker, us, n - 1) {
          var e: int :| EndsAt(Text(us, n - 1), marker, e) && Covered(us, n - 1, e);
          assert EndsAt(Text(us, n), marker, e);
        } else {
          var e: int :| EndsAt(Text(us, n), marker, e) && us[n - 1].offset < e;
          assert Covered(us, n, e);
        }
      }
    }
  }

  lemma {:induction false} CoveredStep(marker: string, us: seq<Update>, n: nat, e: int)
    requires 0 < n <= |us|
    ensures EndsAt(Text(us, n), marker, e) && Covered(us, n, e) <==>
            (EndsAt(Text(us, n - 1), marker, e) && Covered(us, n - 1, e))
            || (EndsAt(Text(us, n), marker, e) && us[n - 1].offset < e)
  {
    hide Text;
    assert EndsAt(Text(us, n), marker, e) ==> e <= |Text(us, n)|;
    if e <= |Text(us, n - 1)| { TextGrows(us, n - 1, n, marker, e); }
    forall k | 0 <= k < n - 1 ensures us[k].offset < e <= |Text(us, k + 1)| ==> e <= |Text(us, n - 1)| {
      TextGrows(us, k + 1, n - 1, marker, 0);
    }
    hide EndsAt;
    if Covered(us, n - 1, e) {
      var k :| 0 <= k < n - 1 && us[k].offset < e <= |Text(us, k + 1)|;
      assert 0 <= k < n;
    }
    if e <= |Text(us, n)| && us[n - 1].offset < e {
      assert us[n - 1].offset < e <= |Text(us, n - 1 + 1)|;
    }
  }

  /** Every scan starts no later than where the text stood before its update. */
  ghost predicate InStep(us: seq<Update>, n: nat)
    requires n <= |us|
  {
    forall k | 0 <= k < n :: us[k].offset <= |Text(us, k)|
  }

  lemma {:induction false} InStepCovers(us: seq<Update>, n: nat, e: int)
    requires n <= |us| && InStep(us, n) && 0 < e <= |Text(us, n)|
    ensures Covered(us, n, e)
    decreases n
  {
    if n == 0 {
    } else {
      if e <= |Text(us, n - 1)| {
        InStepCovers(us, n - 1, e);
        var k :| 0 <= k < n - 1 && us[k].offset < e <= |Text(us, k + 1)|;
        assert 0 <= k < n;
      } else {
        assert us[n - 1].offset < e <= |Text(us, n - 1 + 1)|;
      }
    }
  }

  /** The windowed scan is a scan of the whole text, for every chunking, when each check starts
      where the text stood. */
  lemma {:induction false} WindowedScanIsWholeScan(marker: string, us: seq<Update>, n: nat)
    requires |marker| > 0 && n <= |us| && InStep(us, n)
    ensures Closed(marker, us, n) <==> Occurs(Text(us, n), marker)
  {
    ClosedIffCovered(marker, us, n);
    forall e: int | EndsAt(Text(us, n), marker, e) ensures Covered(us, n, e) {
      InStepCovers(us, n, e);
    }
    hide EndsAt, Covered, Closed;
  }

  /** The offsets when checks wait for a text of length `held`: each starts where the text stood,
      or where the held part ends if that is later and already there. */
  ghost predicate HeldUntil(us: seq<Update>, n: nat, held: nat)
    requires n <= |us|
  {
    forall k | 0 <= k < n :: us[k].offset == Max(|Text(us, k)|, Min(held, |Text(us, k + 1)|))
  }

  /** Positions up to the held length are never covered, all later ones are. */
  lemma {:induction false} HeldCovers(us: seq<Update>, n: nat, held: nat, e: int)
    requires n <= |us| && HeldUntil(us, n, held) && 0 < e <= |Text(us, n)|
    ensures Covered(us, n, e) <==> held < e
    decreases n
  {
    if n == 0 {
    } else if e <= |Text(us, n - 1)| {
      HeldCovers(us, n - 1, held, e);
      CoveredEarlier(us, n, e);
    } else {
      CoveredByLast(us, n, e);
      hide Covered, Text;
    }
  }

  lemma {:induction false} CoveredByLast(us: seq<Update>, n: nat, e: int)
    requires 0 < n <= |us| && |Text(us, n - 1)| < e <= |Text(us, n)|
    ensures Covered(us, n, e) <==> us[n - 1].offset < e
  {
    hide Text;
    forall k | 0 <= k < n - 1 ensures !(us[k].offset < e <= |Text(us, k + 1)|) {
      TextGrows(us, k + 1, n - 1, "", 0);
    }
    assert us[n - 1].offset < e ==> us[n - 1].offset < e <= |Text(us, n - 1 + 1)|;
  }

  lemma {:induction false} CoveredEarlier(us: seq<Update>, n: nat, e: int)
    requires 0 < n <= |us| && e <= |Text(us, n - 1)|
    requires us[n - 1].offset >= |Text(us, n - 1)|
    ensures Covered(us, n, e) <==> Covered(us, n - 1, e)
  {
    hide Text;
    if Covered(us, n - 1, e) {
      var k :| 0 <= k < n - 1 && us[k].offset < e <= |Text(us, k + 1)|;
      assert 0 <= k < n;
    }
  }

  /** While checks are held back, the guard closes exactly when some occurrence of the marker ends
      past the held text: a marker that ends inside it is missed for good. */
  lemma {:induction false} HeldScanMissesHeldText(marker: string, us: seq<Update>, n: nat, held: nat)
    requires |marker| > 0 && n <= |us| && HeldUntil(us, n, held)
    ensures Closed(marker, us, n) <==> exists e: int :: EndsAt(Text(us, n), marker, e) && held < e
  {
    ClosedIffCovered(marker, us, n);
    forall e: int | EndsAt(Text(us, n), marker, e) ensures Covered(us, n, e) <==> held < e {
      HeldCovers(us, n, held, e);
    }
    hide EndsAt, Covered, Closed;
  }

  /** A check that starts past the marker never sees it: when the update that brings the marker
      also moves the offset to the end of the text, the guard stays shut although the reasoning
      has ended. */
  lemma {:induction false} OffsetAheadMissesMarker(marker: string)
    ensures var us := [Update(marker, |marker|)]; Occurs(Text(us, 1), marker) && !Closed(marker, us, 1)
  {
    var us := [Update(marker, |marker|)];
    assert Text(us, 1) == Text(us, 0) + marker == marker;
    assert marker[|marker| - |marker|..|marker|] == marker;
    assert EndsAt(Text(us, 1), marker, |marker|);
    assert !Closed(marker, us, 0);
  }

  // The detokenizer.

  class Detokenizer {
    var outputText: string
    var guard: bool
    var closed: bool
    var endMarker: string

    ghost predicate Valid()
      reads this
    {
      |endMarker| > 0
    }

    /** The guard is armed and says exactly whether the reasoning has ended. */
    ghost predicate Tracks()
      reads this
    {
      guard && (closed <==> Occurs(outputText, endMarker))
    }

    constructor ()
      ensures Valid() && outputText == "" && !guard && !closed
    {
      outputText, guard, closed, endMarker := "", false, false, "</think>";
    }

    /** Armed exactly when the feature is on, the client gave stop strings and the prompt ends
        with the token that opens the reasoning. */
    method Arm(enabled: bool, hasStop: bool, prompt: seq<int>, thinkId: Option<int>, endStr: string)
      requires Valid() && outputText == "" && !guard && !closed && |endStr| > 0
      modifies this
      ensures Valid() && outputText == "" && !closed
      ensures guard <==>
              enabled && hasStop && |prompt| > 0 && thinkId.Some? && 0 <= thinkId.value == prompt[|prompt| - 1]
      ensures guard ==> Tracks() && endMarker == endStr
    {
      if enabled && hasStop && |prompt| > 0 && thinkId.Some? && thinkId.value >= 0
         && prompt[|prompt| - 1] == thinkId.value
      {
        guard, endMarker := true, endStr;
      }
    }

    /** One update: the text grows, the scan runs, and stop strings are evaluated only outside
        the reasoning. Kept in step, the guard goes on tracking the marker, and the update that
        closes it moves the check past the marker's first occurrence. */
    method Check(chunk: string, stopCheckOffset: nat, hasStop: bool, numTokens: nat, minTokens: nat)
      returns (offset: nat, evaluate: bool)
      requires Valid()
      modifies this`outputText, this`closed
      ensures outputText == old(outputText) + chunk
      ensures closed <==> old(closed) || (guard && SeenPast(outputText, endMarker, stopCheckOffset))
      ensures evaluate <==> hasStop && numTokens > minTokens && (!guard || closed)
      ensures offset >= stopCheckOffset && (closed == old(closed) ==> offset == stopCheckOffset)
      ensures closed && !old(closed) ==>
                exists e: int ::
                  FirstEndPast(outputText, endMarker, stopCheckOffset, e) && offset == Max(stopCheckOffset, e)
      ensures old(Tracks()) && stopCheckOffset == |old(outputText)| ==> Tracks()
      ensures old(Tracks()) && stopCheckOffset == |old(outputText)| && closed && !old(closed) ==>
                exists e: int :: FirstEnd(outputText, endMarker, e) && offset == Max(stopCheckOffset, e)
    {
      offset := stopCheckOffset;
      outputText := outputText + chunk;
      if guard && !closed {
        var window := Window(endMarker, offset);
        var idx := Find(outputText, endMarker, window);
        FindSeesPast(outputText, endMarker, offset);
        if idx != -1 {
          FoundIsFirstPast(outputText, endMarker, stopCheckOffset);
          closed := true;
          offset := Max(offset, idx + |endMarker|);
          assert FirstEndPast(outputText, endMarker, stopCheckOffset, idx + |endMarker|);
        }
      }
      StillTracks(old(outputText), chunk, endMarker, old(closed));
      hide EndsAt, Find, Window, SeenPast, Occurs, FirstEndPast, FirstEnd;
      evaluate := hasStop && numTokens > minTokens && (!guard || closed);
    }
  }

  lemma {:induction false} FoundIsFirstPast(text: string, marker: string, offset: nat)
    requires |marker| > 0 && Find(text, marker, Window(marker, offset)) != -1
    ensures FirstEndPast(text, marker, offset, Find(text, marker, Window(marker, offset)) + |marker|)
  {
    var idx := Find(text, marker, Window(marker, offset));
    WindowFits(marker, offset, idx);
    forall x: int | EndsAt(text, marker, x) && offset < x ensures idx + |marker| <= x {
      WindowReaches(text, marker, offset, x);
    }
  }

  /** In step, one scan keeps the flag right, and the first occurrence it sees is the first. */
  lemma {:induction false} StillTracks(text: string, chunk: string, marker: string, closed: bool)
    requires |marker| > 0
    ensures (closed <==> Occurs(text, marker)) ==>
              ((closed || SeenPast(text + chunk, marker, |text|)) <==> Occurs(text + chunk, marker))
    ensures !Occurs(text, marker) ==>
              forall e: int :: FirstEndPast(text + chunk, marker, |text|, e) ==> FirstEnd(text + chunk, marker, e)
  {
    var whole := text + chunk;
    forall e: int | e <= |text| ensures EndsAt(whole, marker, e) == EndsAt(text, marker, e) {
      EndsAtExtends(text, chunk, marker, e);
    }
    hide EndsAt;
    if Occurs(text, marker) {
      var e: int :| EndsAt(text, marker, e);
      EndsAtBounds(text, marker, e);
      assert EndsAt(whole, marker, e);
    }
  }

  lemma {:induction false} EndsAtBounds(text: string, marker: string, e: int)
    requires EndsAt(text, marker, e)
    ensures |marker| <= e <= |text|
  {
  }
}
