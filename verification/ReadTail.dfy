/** Reading the last lines of a log backwards in blocks, against splitting the whole file. Bytes
    and code points are numbers; the decoder replaces malformed UTF-8. */
module ReadTail {
  import opened Wrappers

  type Byte = x: int | 0 <= x < 256
  type Text = seq<int>

  const NEWLINE := 10
  const REPLACEMENT := 0xFFFD
  const BLOCK := 65536

  // Decoding.

  predicate Continuation(b: int) {
    0x80 <= b < 0xC0
  }

  /** What may follow the first byte of a longer sequence. */
  predicate SecondByte(first: int, b: int) {
    if first == 0xE0 then 0xA0 <= b < 0xC0
    else if first == 0xED then 0x80 <= b < 0xA0
    else if first == 0xF0 then 0x90 <= b < 0xC0
    else if first == 0xF4 then 0x80 <= b < 0x90
    else Continuation(b)
  }

  /** The code point at the head of a byte string and the bytes it takes, -1 standing for the
      end of the input. A malformed sequence is replaced up to its last acceptable byte. */
  function DecodeHead(b0: Byte, b1: int, b2: int, b3: int): (r: (int, nat))
    ensures 1 <= r.1 <= 4
    ensures r.1 >= 2 ==> Continuation(b1)
    ensures r.1 >= 3 ==> Continuation(b2)
    ensures r.1 >= 4 ==> Continuation(b3)
  {
    if b0 < 0x80 then (b0, 1)
    else if b0 < 0xC2 || b0 > 0xF4 || !SecondByte(b0, b1) then (REPLACEMENT, 1)
    else if b0 < 0xE0 then ((b0 - 0xC0) * 64 + b1 - 0x80, 2)
    else if !Continuation(b2) then (REPLACEMENT, 2)
    else if b0 < 0xF0 then ((b0 - 0xE0) * 4096 + (b1 - 0x80) * 64 + b2 - 0x80, 3)
    else if !Continuation(b3) then (REPLACEMENT, 3)
    else ((b0 - 0xF0) * 262144 + (b1 - 0x80) * 4096 + (b2 - 0x80) * 64 + b3 - 0x80, 4)
  }

  function ByteAt(s: seq<Byte>, i: nat): int {
    if i < |s| then s[i] else -1
  }

  /** `DecodeHead` of a non-empty byte string. */
  function Head(s: seq<Byte>): (r: (int, nat))
    requires |s| > 0
    ensures 1 <= r.1 <= |s|
  {
    DecodeHead(s[0], ByteAt(s, 1), ByteAt(s, 2), ByteAt(s, 3))
  }

  /** `bytes.decode("utf-8", "replace")`. */
  function Decode(s: seq<Byte>): Text {
    if s == [] then [] else [Head(s).0] + Decode(s[Head(s).1..])
  }

  // What the decoder means, against the encoding.

  /** The code points that have an encoding. */
  predicate Scalar(c: int) {
    0 <= c < 0xD800 || 0xE000 <= c < 0x110000
  }

  /** The UTF-8 encoding of one code point. */
  function EncodeChar(c: int): (e: seq<Byte>)
    requires Scalar(c)
    ensures 1 <= |e| <= 4
  {
    if c < 0x80 then [c]
    else if c < 0x800 then [0xC0 + c / 64, 0x80 + c % 64]
    else if c < 0x10000 then [0xE0 + c / 4096, 0x80 + c / 64 % 64, 0x80 + c % 64]
    else [0xF0 + c / 262144, 0x80 + c / 4096 % 64, 0x80 + c / 64 % 64, 0x80 + c % 64]
  }

  function Encode(t: Text): seq<Byte>
    requires forall i | 0 <= i < |t| :: Scalar(t[i])
  {
    if t == [] then [] else EncodeChar(t[0]) + Encode(t[1..])
  }

  lemma {:induction false} EncodedPair(b0: Byte, b1: Byte, c: int)
    requires 0xC2 <= b0 < 0xE0 && Continuation(b1) && c == (b0 - 0xC0) * 64 + b1 - 0x80
    ensures Scalar(c) && EncodeChar(c) == [b0, b1]
  {
  }

  lemma {:induction false} EncodedTriple(b0: Byte, b1: Byte, b2: Byte, c: int)
    requires 0xE0 <= b0 < 0xF0 && SecondByte(b0, b1) && Continuation(b2)
    requires c == (b0 - 0xE0) * 4096 + (b1 - 0x80) * 64 + b2 - 0x80
    ensures Scalar(c) && EncodeChar(c) == [b0, b1, b2]
  {
    assert c / 64 == (b0 - 0xE0) * 64 + b1 - 0x80 && c / 4096 == b0 - 0xE0;
  }

  lemma {:induction false} EncodedQuadruple(b0: Byte, b1: Byte, b2: Byte, b3: Byte, c: int)
    requires 0xF0 <= b0 < 0xF5 && SecondByte(b0, b1) && Continuation(b2) && Continuation(b3)
    requires c == (b0 - 0xF0) * 262144 + (b1 - 0x80) * 4096 + (b2 - 0x80) * 64 + b3 - 0x80
    ensures Scalar(c) && EncodeChar(c) == [b0, b1, b2, b3]
  {
    assert c / 64 == (b0 - 0xF0) * 4096 + (b1 - 0x80) * 64 + b2 - 0x80;
    assert c / 4096 == (b0 - 0xF0) * 64 + b1 - 0x80 && c / 262144 == b0 - 0xF0;
  }

  /** The byte ranges of an encoding, and the code point they carry. */
  lemma {:induction false} EncodingShape(c: int)
    requires Scalar(c)
    ensures var e := EncodeChar(c);
            && (|e| == 1 <==> e[0] < 0x80) && (|e| == 2 <==> 0xC2 <= e[0] < 0xE0)
            && (|e| == 3 <==> 0xE0 <= e[0] < 0xF0) && (|e| == 4 <==> 0xF0 <= e[0] < 0xF5)
            && (|e| >= 2 ==> SecondByte(e[0], e[1]))
            && (|e| >= 3 ==> Continuation(e[2])) && (|e| == 4 ==> Continuation(e[3]))
  {
  }

  lemma {:induction false} EncodedValue(c: int)
    requires Scalar(c)
    ensures var e: seq<int> := EncodeChar(c);
            c == if |e| == 1 then e[0]
                 else if |e| == 2 then (e[0] - 0xC0) * 64 + e[1] - 0x80
                 else if |e| == 3 then (e[0] - 0xE0) * 4096 + (e[1] - 0x80) * 64 + e[2] - 0x80
                 else (e[0] - 0xF0) * 262144 + (e[1] - 0x80) * 4096 + (e[2] - 0x80) * 64 + e[3] - 0x80
  {
    assert c / 64 == 64 * (c / 64 / 64) + c / 64 % 64 && c / 64 / 64 == c / 4096;
    assert c / 4096 == 64 * (c / 4096 / 64) + c / 4096 % 64 && c / 4096 / 64 == c / 262144;
  }

  lemma {:induction false} HeadOfEncoded(c: int, rest: seq<Byte>)
    requires Scalar(c)
    ensures Head(EncodeChar(c) + rest) == (c, |EncodeChar(c)|)
  {
    var e, s := EncodeChar(c), EncodeChar(c) + rest;
    EncodingShape(c);
    EncodedValue(c);
    assert forall i | 0 <= i < |e| :: s[i] == e[i];
    hide EncodeChar;
  }

  /** `p` is the start of some encoding. */
  ghost predicate StartsEncoding(p: seq<Byte>) {
    exists c: int :: Scalar(c) && p <= EncodeChar(c)
  }

  /** The bytes of a head of `n` bytes that is replaced. */
  predicate Replaced(s: seq<Byte>, n: nat)
    requires 1 <= n <= |s|
  {
    && s[0] >= 0x80 && n <= 3
    && (n == 1 ==> s[0] < 0xC2 || s[0] > 0xF4 || !SecondByte(s[0], ByteAt(s, 1)))
    && (n == 2 ==> 0xE0 <= s[0] < 0xF5 && SecondByte(s[0], s[1]) && !Continuation(ByteAt(s, 2)))
    && (n == 3 ==> 0xF0 <= s[0] < 0xF5 && SecondByte(s[0], s[1]) && Continuation(s[2]) && !Continuation(ByteAt(s, 3)))
  }

  /** A head is an encoding, or it is replaced. */
  lemma {:induction false} HeadCases(s: seq<Byte>)
    requires |s| > 0
    ensures var (c, n) := Head(s); (Scalar(c) && EncodeChar(c) == s[..n]) || (c == 0xFFFD && Replaced(s, n))
  {
    var (c, n) := Head(s);
    if s[0] < 0x80 {
    } else if s[0] < 0xE0 && n == 2 {
      EncodedPair(s[0], s[1], c);
      hide EncodeChar, Scalar;
    } else if 0xE0 <= s[0] < 0xF0 && n == 3 {
      EncodedTriple(s[0], s[1], s[2], c);
      hide EncodeChar, Scalar;
    } else if n == 4 {
      EncodedQuadruple(s[0], s[1], s[2], s[3], c);
      hide EncodeChar, Scalar;
    } else {
      hide EncodeChar, Scalar;
    }
  }

  lemma {:induction false} MalformedHead(s: seq<Byte>)
    requires |s| > 0 && forall c: int | Scalar(c) :: !(EncodeChar(c) <= s)
    ensures var (c, n) := Head(s);
            c == 0xFFFD && (n > 1 ==> StartsEncoding(s[..n])) && (n < |s| ==> !StartsEncoding(s[..n + 1]))
  {
    HeadCases(s);
    var n := Head(s).1;
    assert s[..n] <= s;
    if n > 1 { ReplacedStart(s, n); }
    if n < |s| {
      forall c: int | Scalar(c) ensures !(s[..n + 1] <= EncodeChar(c)) {
        NotTheStart(s, n, c);
      }
    }
  }

  lemma {:induction false} NotTheStart(s: seq<Byte>, n: nat, c: int)
    requires Scalar(c) && n < |s| && 1 <= n <= 3 && s[0] >= 0x80
    requires n == 1 ==> s[0] < 0xC2 || s[0] > 0xF4 || !SecondByte(s[0], s[1])
    requires n == 2 ==> s[0] >= 0xE0 && !Continuation(s[2])
    requires n == 3 ==> s[0] >= 0xF0 && !Continuation(s[3])
    ensures !(s[..n + 1] <= EncodeChar(c))
  {
    EncodingShape(c);
    var e := EncodeChar(c);
    hide EncodeChar, Scalar, SecondByte, Continuation;
    assert s[..n + 1][0] == s[0] && s[..n + 1][1] == s[1] && s[..n + 1][n] == s[n];
  }

  /** Filled up with the least continuation bytes, what is replaced is an encoding. */
  lemma {:induction false} ReplacedStart(s: seq<Byte>, n: nat)
    requires 2 <= n <= 3 && n <= |s| && 0xE0 <= s[0] < 0xF5 && SecondByte(s[0], s[1])
    requires n == 3 ==> s[0] >= 0xF0 && Continuation(s[2])
    ensures StartsEncoding(s[..n])
  {
    var b0: int, b1: int := s[0], s[1];
    var b2: Byte := if n == 3 then s[2] else 0x80;
    assert Continuation(b2) && Continuation(0x80);
    hide EncodeChar, Scalar, SecondByte, Continuation;
    if s[0] < 0xF0 {
      var c := (b0 - 0xE0) * 4096 + (b1 - 0x80) * 64;
      EncodedTriple(s[0], s[1], 0x80, c);
      assert s[..n] <= [s[0], s[1], 0x80];
    } else {
      var c := (b0 - 0xF0) * 262144 + (b1 - 0x80) * 4096 + (b2 as int - 0x80) * 64;
      EncodedQuadruple(s[0], s[1], b2, 0x80, c);
      assert s[..n] <= [s[0], s[1], b2, 0x80];
    }
  }

  /** An encoded head decodes to its code point. */
  lemma {:induction false} DecodeEncodedHead(c: int, rest: seq<Byte>)
    requires Scalar(c)
    ensures Decode(EncodeChar(c) + rest) == [c] + Decode(rest)
  {
    HeadOfEncoded(c, rest);
    hide Head, EncodeChar, Scalar;
    assert (EncodeChar(c) + rest)[|EncodeChar(c)|..] == rest;
  }

  /** Decoding undoes encoding. */
  lemma {:induction false} DecodeOfEncoded(t: Text)
    requires forall i | 0 <= i < |t| :: Scalar(t[i])
    ensures Decode(Encode(t)) == t
  {
    if t == [] {
    } else {
      DecodeEncodedHead(t[0], Encode(t[1..]));
      DecodeOfEncoded(t[1..]);
      hide Decode, EncodeChar, Scalar;
    }
  }

  /** Any other head is replaced, and the replacement takes the longest part that could have started
      an encoding, or one byte when none could. */
  lemma {:induction false} DecodeReplacedHead(s: seq<Byte>) returns (n: nat)
    requires |s| > 0 && forall c: int | Scalar(c) :: !(EncodeChar(c) <= s)
    ensures 1 <= n <= |s| && Decode(s) == [0xFFFD] + Decode(s[n..])
    ensures n > 1 ==> StartsEncoding(s[..n])
    ensures n < |s| ==> !StartsEncoding(s[..n + 1])
  {
    MalformedHead(s);
    n := Head(s).1;
    hide Head, EncodeChar, Scalar, StartsEncoding;
  }

  /** A newline ends whatever sequence is open, as the end of the input does. */
  lemma {:induction false} HeadBeforeNewline(a: seq<Byte>, b: seq<Byte>)
    requires |a| > 0
    ensures Head(a + [NEWLINE] + b) == Head(a)
  {
    var s := a + [NEWLINE] + b;
    assert ByteAt(s, 0) == a[0];
    assert |a| > 1 ==> ByteAt(s, 1) == ByteAt(a, 1);
    assert |a| > 2 ==> ByteAt(s, 2) == ByteAt(a, 2);
    assert |a| > 3 ==> ByteAt(s, 3) == ByteAt(a, 3);
    assert |a| == 1 ==> ByteAt(s, 1) == NEWLINE;
    assert |a| == 2 ==> ByteAt(s, 2) == NEWLINE;
    assert |a| == 3 ==> ByteAt(s, 3) == NEWLINE;
  }

  /** Dropping the head of the part before a newline. */
  lemma {:induction false} DropBefore<T>(a: seq<T>, m: T, b: seq<T>, n: nat)
    requires n <= |a|
    ensures (a + [m] + b)[n..] == a[n..] + [m] + b
  {
  }

  lemma {:induction false} ConsBefore<T>(h: T, a: seq<T>, m: T, b: seq<T>)
    ensures [h] + (a + [m] + b) == ([h] + a) + [m] + b
  {
  }

  /** Decoding splits at newlines: a newline byte is a newline character, whatever surrounds it. */
  lemma {:induction false} DecodeAtNewline(a: seq<Byte>, b: seq<Byte>)
    ensures Decode(a + [NEWLINE] + b) == Decode(a) + [NEWLINE] + Decode(b)
    decreases |a|
  {
    if a == [] {
      var s := [NEWLINE] + b;
      assert a + [NEWLINE] + b == s;
      assert s[1..] == b;
      assert Head(s) == (NEWLINE, 1);
    } else {
      HeadBeforeNewline(a, b);
      hide Head;
      var n := Head(a).1;
      DropBefore(a, NEWLINE, b, n);
      DecodeAtNewline(a[n..], b);
      ConsBefore(Head(a).0, Decode(a[n..]), NEWLINE, Decode(b));
    }
  }

  // Lines.

  /** The line boundaries of `str.splitlines`. */
  predicate Breaks(c: int) {
    c in {0x0A, 0x0B, 0x0C, 0x0D, 0x1C, 0x1D, 0x1E, 0x85, 0x2028, 0x2029}
  }

  /** The first boundary at or after `i`, or the end. */
  function FirstBreak(t: Text, i: nat): (k: nat)
    requires i <= |t|
    ensures i <= k <= |t| && (k < |t| ==> Breaks(t[k]))
    ensures forall j | i <= j < k :: !Breaks(t[j])
    decreases |t| - i
  {
    if i == |t| || Breaks(t[i]) then i else FirstBreak(t, i + 1)
  }

  /** Where the line after the boundary at `k` starts: carriage return and newline are one. */
  function AfterBreak(t: Text, k: nat): (n: nat)
    requires k < |t|
    ensures k < n <= |t|
  {
    if t[k] == 0x0D && k + 1 < |t| && t[k + 1] == NEWLINE then k + 2 else k + 1
  }

  /** `str.splitlines()`. */
  function SplitLines(t: Text): seq<Text>
    decreases |t|
  {
    if t == [] then []
    else
      var k := FirstBreak(t, 0);
      if k == |t| then [t] else [t[..k]] + SplitLines(t[AfterBreak(t, k)..])
  }

  lemma {:induction false} BreakIs(t: Text, i: nat, k: nat)
    requires i <= k <= |t| && (k < |t| ==> Breaks(t[k])) && forall j | i <= j < k :: !Breaks(t[j])
    ensures FirstBreak(t, i) == k
    decreases |t| - i
  {
    hide Breaks;
    if i == k {
    } else {
      BreakIs(t, i + 1, k);
    }
  }

  /** Text without a line boundary is one line, or none when it is empty. */
  lemma {:induction false} UnbrokenText(a: Text)
    requires forall i | 0 <= i < |a| ::
               a[i] !in {0x0A, 0x0B, 0x0C, 0x0D, 0x1C, 0x1D, 0x1E, 0x85, 0x2028, 0x2029}
    ensures SplitLines(a) == if a == [] then [] else [a]
  {
    BreakIs(a, 0, |a|);
  }

  /** And the first boundary behind it ends it, a carriage return together with a newline. */
  lemma {:induction false} BrokenText(a: Text, c: int, b: Text)
    requires forall i | 0 <= i < |a| ::
               a[i] !in {0x0A, 0x0B, 0x0C, 0x0D, 0x1C, 0x1D, 0x1E, 0x85, 0x2028, 0x2029}
    requires c in {0x0A, 0x0B, 0x0C, 0x0D, 0x1C, 0x1D, 0x1E, 0x85, 0x2028, 0x2029}
    ensures SplitLines(a + [c] + b) == [a] + SplitLines(if c == 0x0D && |b| > 0 && b[0] == 0x0A then b[1..] else b)
  {
    var t := a + [c] + b;
    assert forall j | 0 <= j < |a| :: t[j] == a[j];
    assert t[|a|] == c;
    BreakIs(t, 0, |a|);
    assert t[..|a|] == a && t[|a| + 1..] == b;
    assert |b| > 0 ==> t[|a| + 1] == b[0] && t[|a| + 2..] == b[1..];
    hide FirstBreak, Breaks;
  }

  /** What follows a newline does not change the first line or where it ends. */
  lemma {:induction false} FirstLineBeforeNewline(a: Text, b: Text)
    ensures var t, h := a + [NEWLINE] + b, a + [NEWLINE];
            var k := FirstBreak(h, 0);
            && k <= |a| && FirstBreak(t, 0) == k && t[..k] == h[..k]
            && AfterBreak(t, k) == AfterBreak(h, k)
  {
    var t, h := a + [NEWLINE] + b, a + [NEWLINE];
    var k := FirstBreak(h, 0);
    assert h[|a|] == NEWLINE && Breaks(h[|a|]);
    assert forall j | 0 <= j <= |a| :: t[j] == h[j];
    hide Breaks;
    assert k <= |a|;
    BreakIs(t, 0, k);
  }

  /** A newline always ends a line, also when a carriage return stands before it. */
  lemma {:induction false} LinesAtNewline(a: Text, b: Text)
    ensures SplitLines(a + [NEWLINE] + b) == SplitLines(a + [NEWLINE]) + SplitLines(b)
    ensures |SplitLines(a + [NEWLINE])| >= 1
    decreases |a|
  {
    hide FirstBreak, Breaks, AfterBreak;
    var t, h := a + [NEWLINE] + b, a + [NEWLINE];
    FirstLineBeforeNewline(a, b);
    var k := FirstBreak(h, 0);
    var n := AfterBreak(h, k);
    assert SplitLines(t) == [t[..k]] + SplitLines(t[n..]);
    assert SplitLines(h) == [h[..k]] + SplitLines(h[n..]);
    if n == |h| {
      assert t[n..] == b && h[n..] == [];
    } else {
      DropBefore(a, NEWLINE, b, n);
      DropBefore(a, NEWLINE, [], n);
      assert a + [NEWLINE] + [] == h && a[n..] + [NEWLINE] + [] == a[n..] + [NEWLINE];
      LinesAtNewline(a[n..], b);
    }
  }

  // The tail.

  /** `data.count(b"\n")`. */
  function Newlines(s: seq<Byte>): nat {
    if s == [] then 0 else (if s[0] == NEWLINE then 1 else 0) + Newlines(s[1..])
  }

  lemma {:induction false} NewlinesAreCounted(s: seq<Byte>)
    ensures Newlines(s) == multiset(s)[10]
  {
    if s == [] {
    } else {
      NewlinesAreCounted(s[1..]);
      assert s == [s[0]] + s[1..];
    }
  }

  /** The position of a newline when there is one. */
  lemma {:induction false} FirstNewline(s: seq<Byte>) returns (i: nat)
    requires Newlines(s) > 0
    ensures i < |s| && s == s[..i] + [NEWLINE] + s[i + 1..] && Newlines(s[i + 1..]) == Newlines(s) - 1
  {
    if s[0] == NEWLINE {
      i := 0;
    } else {
      i := FirstNewline(s[1..]);
      assert s[1..][i + 1..] == s[i + 2..];
      assert s[1..][..i] == s[1..i + 1];
      i := i + 1;
    }
  }

  /** Every newline byte ends at least one line. */
  lemma {:induction false} NewlinesAreLines(s: seq<Byte>)
    ensures |SplitLines(Decode(s))| >= Newlines(s)
    decreases |s|
  {
    if Newlines(s) == 0 {
    } else {
      var i := FirstNewline(s);
      DecodeAtNewline(s[..i], s[i + 1..]);
      LinesAtNewline(Decode(s[..i]), Decode(s[i + 1..]));
      NewlinesAreLines(s[i + 1..]);
      hide Decode, SplitLines, Newlines;
    }
  }

  /** `lines[-n:]`. */
  function Last<T>(lines: seq<T>, n: nat): (r: seq<T>)
    requires n > 0
    ensures |r| <= |lines| && r == lines[|lines| - |r|..] && (|r| == n || (|r| < n && |r| == |lines|))
  {
    if |lines| <= n then lines else lines[|lines| - n..]
  }

  lemma {:induction false} LastOfConcat<T>(a: seq<T>, b: seq<T>, n: nat)
    requires n > 0 && |b| >= n
    ensures Last(a + b, n) == Last(b, n)
  {
    var s := a + b;
    assert s[|s| - n..] == b[|b| - n..];
  }

  /** Past its first newline, a suffix with more newlines than lines asked for decides the answer. */
  lemma {:induction false} SuffixDecides(before: seq<Byte>, data: seq<Byte>, n: nat)
    requires n > 0 && Newlines(data) > n
    ensures Last(SplitLines(Decode(before + data)), n) == Last(SplitLines(Decode(data)), n)
  {
    var i := FirstNewline(data);
    var x, y := data[..i], data[i + 1..];
    assert before + data == before + x + [NEWLINE] + y;
    DecodeAtNewline(x, y);
    DecodeAtNewline(before + x, y);
    hide Decode, SplitLines, Newlines, Last;
    LinesAtNewline(Decode(x), Decode(y));
    LinesAtNewline(Decode(before + x), Decode(y));
    NewlinesAreLines(y);
    LastOfConcat(SplitLines(Decode(x) + [NEWLINE]), SplitLines(Decode(y)), n);
    LastOfConcat(SplitLines(Decode(before + x) + [NEWLINE]), SplitLines(Decode(y)), n);
  }

  /** Reading backwards in blocks returns the last lines of the whole file. */
  method ReadTail(file: seq<Byte>, maxLines: int) returns (lines: Result<seq<Text>>)
    ensures lines == if maxLines < 1 then Error("--tail-lines must be >= 1")
                     else Ok(Last(SplitLines(Decode(file)), maxLines))
  {
    hide Decode, SplitLines, Newlines, Last;
    if maxLines < 1 {
      return Error("--tail-lines must be >= 1");
    }
    var end: nat := |file|;
    var data: seq<Byte> := [];
    while end > 0 && Newlines(data) <= maxLines
      invariant end <= |file| && data == file[end..]
      decreases end
    {
      var step := if BLOCK < end then BLOCK else end;
      end := end - step;
      data := file[end..end + step] + data;
    }
    assert file == file[..end] + data;
    if Newlines(data) > maxLines {
      SuffixDecides(file[..end], data, maxLines);
    } else {
      assert data == file;
    }
    return Ok(Last(SplitLines(Decode(data)), maxLines));
  }
}
