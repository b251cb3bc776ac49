/** The Python 2 `str` operations the daemon relies on: `split` on one
    separator character, `splitlines`, `lstrip` of one character, and the
    decimal rendering that `%d` (and `%s` of an `int`) produces. */
module PyText {

  datatype Option<T> = None | Some(value: T)

  /** Index of the first occurrence of `c` in `s`, or `|s|` when there is none. */
  function Find(s: string, c: char): (n: nat)
    ensures n <= |s|
    ensures forall i :: 0 <= i < n ==> s[i] != c
    ensures n < |s| ==> s[n] == c
  {
    if s == [] then 0
    else if s[0] == c then 0
    else 1 + Find(s[1..], c)
  }

  /** `s.split(c)`: the pieces between the occurrences of `c`; never empty. */
  function Split(s: string, c: char): (parts: seq<string>)
    ensures |parts| >= 1
    ensures forall i :: 0 <= i < |parts| ==> c !in parts[i]
    decreases |s|
  {
    var n := Find(s, c);
    if n == |s| then [s] else [s[..n]] + Split(s[n + 1..], c)
  }

  /** `c.join(parts)`. */
  function Join(parts: seq<string>, c: char): string
  {
    if parts == [] then ""
    else if |parts| == 1 then parts[0]
    else parts[0] + [c] + Join(parts[1..], c)
  }

  /** Joining the pieces again gives back the original string. */
  lemma {:induction false} JoinSplit(s: string, c: char)
    ensures Join(Split(s, c), c) == s
    decreases |s|
  {
    var n := Find(s, c);
    if n < |s| {
      var a, b := s[..n], s[n + 1..];
      SplitStep(s, c, n);
      JoinCons(a, Split(b, c), c);
      JoinSplit(b, c);
      assert s == a + [c] + b;
    }
  }

  lemma SplitStep(s: string, c: char, n: nat)
    requires n == Find(s, c) && n < |s|
    ensures Split(s, c) == [s[..n]] + Split(s[n + 1..], c)
  {
  }

  lemma JoinCons(a: string, rest: seq<string>, c: char)
    requires rest != []
    ensures Join([a] + rest, c) == a + [c] + Join(rest, c)
  {
    assert ([a] + rest)[1..] == rest;
  }

  /** Splitting a join of separator-free pieces gives back the pieces. */
  lemma {:induction false} SplitJoin(parts: seq<string>, c: char)
    requires |parts| >= 1
    requires forall i :: 0 <= i < |parts| ==> c !in parts[i]
    ensures Split(Join(parts, c), c) == parts
  {
    if |parts| > 1 {
      var s := Join(parts, c);
      assert s == parts[0] + ([c] + Join(parts[1..], c));
      FindFirst(parts[0], [c] + Join(parts[1..], c), c);
      assert s[|parts[0]| + 1..] == Join(parts[1..], c);
      assert s[..|parts[0]|] == parts[0];
      assert Split(s, c) == [parts[0]] + Split(Join(parts[1..], c), c);
      SplitJoin(parts[1..], c);
      assert parts == [parts[0]] + parts[1..];
    } else {
      FindFirst(parts[0], [], c);
      assert parts[0] + [] == parts[0];
    }
  }

  lemma {:induction false} FindFirst(a: string, b: string, c: char)
    requires c !in a
    requires b == [] || b[0] == c
    ensures Find(a + b, c) == |a|
  {
    if a != [] {
      assert (a + b)[1..] == a[1..] + b;
      FindFirst(a[1..], b, c);
    }
  }

  /** A character other than the separator is in a join only if it is in a piece. */
  lemma {:induction false} JoinAvoids(parts: seq<string>, c: char, x: char)
    requires x != c
    requires forall i :: 0 <= i < |parts| ==> x !in parts[i]
    ensures x !in Join(parts, c)
  {
    if |parts| > 1 {
      JoinAvoids(parts[1..], c, x);
    }
  }

  /** `s.split(c)` has one piece more than `s` has separators. */
  lemma {:induction false} SplitCount(s: string, c: char)
    ensures |Split(s, c)| == multiset(s)[c] + 1
    decreases |s|
  {
    var n := Find(s, c);
    if n == |s| {
      NoOccurrence(s, c);
    } else {
      SplitCountStep(s, c, n);
      SplitCount(s[n + 1..], c);
    }
  }

  lemma SplitCountStep(s: string, c: char, n: nat)
    requires n == Find(s, c) && n < |s|
    ensures |Split(s, c)| == |Split(s[n + 1..], c)| + 1
    ensures multiset(s)[c] == multiset(s[n + 1..])[c] + 1
  {
    var a, b := s[..n], s[n + 1..];
    NoOccurrence(a, c);
    assert s == a + [c] + b;
    assert multiset(s) == multiset(a) + multiset([c]) + multiset(b);
  }

  lemma NoOccurrence(s: string, c: char)
    requires forall i :: 0 <= i < |s| ==> s[i] != c
    ensures multiset(s)[c] == 0
  {
  }

  /** `s.lstrip(c)`: `s` without its leading run of `c`. */
  function LStrip(s: string, c: char): (r: string)
    ensures |r| <= |s| && r == s[|s| - |r|..]
    ensures r == [] || r[0] != c
    ensures forall i :: 0 <= i < |s| - |r| ==> s[i] == c
  {
    if s != [] && s[0] == c then LStrip(s[1..], c) else s
  }

  predicate IsLineBreak(ch: char) { ch == '\n' || ch == '\r' }

  predicate IsDigit(ch: char) { '0' <= ch <= '9' }

  /** Length of the leading part of `s` that holds no line break. */
  function LineLength(s: string): (n: nat)
    ensures n <= |s|
    ensures forall i :: 0 <= i < n ==> !IsLineBreak(s[i])
    ensures n < |s| ==> IsLineBreak(s[n])
  {
    if s == [] || IsLineBreak(s[0]) then 0 else 1 + LineLength(s[1..])
  }

  /** Python 2 `str.splitlines()`: lines end at `\n`, `\r` or `\r\n`; a final
      line break does not start an empty last line. */
  function SplitLines(s: string): (lines: seq<string>)
    decreases |s|
  {
    if s == [] then []
    else
      var n := LineLength(s);
      if n == |s| then [s]
      else
        [s[..n]] + SplitLines(s[BreakEnd(s, n)..])
  }

  /** Where the line break starting at `n` ends: `\r\n` counts as one break. */
  function BreakEnd(s: string, n: nat): (next: nat)
    requires n < |s|
    ensures n < next <= |s|
  {
    if s[n] == '\r' && n + 1 < |s| && s[n + 1] == '\n' then n + 2 else n + 1
  }

  /** The lines that are not empty, in order. */
  function NonEmpty(lines: seq<string>): (r: seq<string>)
  {
    if lines == [] then []
    else
      var prev := NonEmpty(lines[..|lines| - 1]);
      if lines[|lines| - 1] == [] then prev else prev + [lines[|lines| - 1]]
  }

  lemma {:induction false} NonEmptyAppend(a: seq<string>, b: seq<string>)
    ensures NonEmpty(a + b) == NonEmpty(a) + NonEmpty(b)
    decreases |b|
  {
    if b != [] {
      assert (a + b)[..|a + b| - 1] == a + b[..|b| - 1];
      NonEmptyAppend(a, b[..|b| - 1]);
    } else {
      assert a + b == a;
    }
  }

  /** The maximal runs of characters that are not line breaks: a reference
      definition of what the ingest loop feeds to the decoder. */
  function Chunks(s: string): (r: seq<string>)
    decreases |s|
  {
    if s == [] then []
    else if IsLineBreak(s[0]) then Chunks(s[1..])
    else
      var n := LineLength(s);
      [s[..n]] + Chunks(s[n..])
  }

  /** Dropping the empty lines of `splitlines()` leaves exactly the maximal
      runs of non-line-break characters. */
  lemma {:induction false} NonEmptyLinesAreChunks(s: string)
    ensures NonEmpty(SplitLines(s)) == Chunks(s)
    decreases |s|
  {
    if s != [] {
      var n := LineLength(s);
      if n == |s| {
        SingleChunk(s);
        assert [s][..0] == [];
      } else {
        var next := BreakEnd(s, n);
        var rest := s[next..];
        var lines := SplitLines(rest);
        NonEmptyLinesAreChunks(rest);
        SplitLinesStep(s, n, next);
        NonEmptyAppend([s[..n]], lines);
        NonEmptySingle(s[..n]);
        ChunksAtBreak(s, n, next);
        assert (s[..n] == []) == (n == 0);
      }
    }
  }

  lemma SplitLinesStep(s: string, n: nat, next: nat)
    requires n == LineLength(s) && n < |s|
    requires next == BreakEnd(s, n)
    ensures SplitLines(s) == [s[..n]] + SplitLines(s[next..])
  {
  }

  lemma NonEmptySingle(x: string)
    ensures NonEmpty([x]) == if x == [] then [] else [x]
  {
    assert [x][..0] == [];
  }

  lemma ChunksAtBreak(s: string, n: nat, next: nat)
    requires n == LineLength(s) && n < |s|
    requires next == BreakEnd(s, n)
    ensures Chunks(s) == (if n == 0 then [] else [s[..n]]) + Chunks(s[next..])
  {
    BreakRun(s, n, next);
    SkipBreaks(s[n..], next - n);
    assert s[n..][next - n..] == s[next..];
    if n > 0 {
      ChunksHead(s, n);
    } else {
      assert s[n..] == s;
    }
  }

  /** The characters from `n` up to `BreakEnd(s, n)` are line breaks. */
  lemma BreakRun(s: string, n: nat, next: nat)
    requires n < |s| && IsLineBreak(s[n])
    requires next == BreakEnd(s, n)
    ensures forall i :: 0 <= i < next - n ==> IsLineBreak(s[n..][i])
  {
    forall i | 0 <= i < next - n
      ensures IsLineBreak(s[n..][i])
    {
      assert s[n..][i] == s[n + i];
    }
  }

  lemma ChunksHead(s: string, n: nat)
    requires 0 < n == LineLength(s)
    ensures Chunks(s) == [s[..n]] + Chunks(s[n..])
  {
    assert !IsLineBreak(s[0]);
  }

  lemma {:induction false} SkipBreaks(s: string, k: nat)
    requires k <= |s|
    requires forall i :: 0 <= i < k ==> IsLineBreak(s[i])
    ensures Chunks(s) == Chunks(s[k..])
  {
    if k > 0 {
      SkipBreaks(s[1..], k - 1);
      assert s[1..][k - 1..] == s[k..];
    }
  }

  /** A line break splits the runs of a string into those before and those after. */
  lemma {:induction false} ChunksAppend(a: string, b: string)
    ensures Chunks(a + "\n" + b) == Chunks(a) + Chunks(b)
    decreases |a|
  {
    var s := a + "\n" + b;
    if a == [] {
      assert s[1..] == b;
    } else if IsLineBreak(a[0]) {
      assert s[1..] == a[1..] + "\n" + b;
      ChunksAppend(a[1..], b);
    } else {
      var n := LineLength(a);
      LineLengthPrefix(a, "\n" + b);
      assert s == a + ("\n" + b);
      ChunksHead(s, n);
      ChunksHead(a, n);
      assert s[..n] == a[..n];
      assert s[n..] == a[n..] + "\n" + b;
      ChunksAppend(a[n..], b);
    }
  }

  lemma {:induction false} LineLengthPrefix(a: string, b: string)
    requires b == [] || IsLineBreak(b[0])
    ensures LineLength(a + b) == LineLength(a)
  {
    if a != [] && !IsLineBreak(a[0]) {
      assert (a + b)[1..] == a[1..] + b;
      LineLengthPrefix(a[1..], b);
    }
  }

  /** A non-empty string without line breaks is a single run. */
  lemma SingleChunk(s: string)
    requires s != []
    requires forall i :: 0 <= i < |s| ==> !IsLineBreak(s[i])
    ensures Chunks(s) == [s]
  {
    assert LineLength(s) == |s|;
    assert s[|s|..] == [] && s[..|s|] == s;
    assert !IsLineBreak(s[0]);
  }

  // ----- decimal rendering of integers (`%d`, and `%s` of an int) -----

  function DigitChar(d: nat): char
    requires d < 10
  {
    "0123456789"[d]
  }

  function DigitValue(ch: char): nat
    requires IsDigit(ch)
  {
    (ch as int - '0' as int) as nat
  }

  function NatToString(n: nat): (s: string)
    ensures s != [] && forall i :: 0 <= i < |s| ==> IsDigit(s[i])
  {
    if n < 10 then [DigitChar(n)] else NatToString(n / 10) + [DigitChar(n % 10)]
  }

  /** Python's `'%d' % i` for an integer `i`. */
  function IntToString(i: int): string
  {
    if i < 0 then "-" + NatToString(-i) else NatToString(i)
  }

  function ParseDigits(s: string): nat
    requires forall i :: 0 <= i < |s| ==> IsDigit(s[i])
  {
    if s == [] then 0 else 10 * ParseDigits(s[..|s| - 1]) + DigitValue(s[|s| - 1])
  }

  /** Reads back a rendering made by `IntToString`. */
  function ParseInt(s: string): Option<int>
  {
    if s != [] && s[0] == '-' && |s| > 1 && forall i :: 1 <= i < |s| ==> IsDigit(s[i]) then
      Some(-(ParseDigits(s[1..]) as int))
    else if s != [] && forall i :: 0 <= i < |s| ==> IsDigit(s[i]) then
      Some(ParseDigits(s))
    else None
  }

  lemma {:induction false} ParseNatToString(n: nat)
    ensures ParseDigits(NatToString(n)) == n
  {
    if n >= 10 {
      var s := NatToString(n);
      assert s[..|s| - 1] == NatToString(n / 10);
      ParseNatToString(n / 10);
    }
  }

  /** `%d` rendering is injective: the integer can be read back. */
  lemma IntToStringRoundTrip(i: int)
    ensures ParseInt(IntToString(i)) == Some(i)
  {
    var s := IntToString(i);
    if i < 0 {
      var t := NatToString(-i);
      ParseNatToString(-i);
      assert s == "-" + t;
      assert s[1..] == t;
      assert forall j :: 1 <= j < |s| ==> s[j] == t[j - 1];
      assert ParseInt(s) == Some(-(ParseDigits(t) as int));
    } else {
      ParseNatToString(i);
      assert s[0] != '-' by {
        assert IsDigit(s[0]);
      }
      assert ParseInt(s) == Some(ParseDigits(s) as int);
    }
  }
}
