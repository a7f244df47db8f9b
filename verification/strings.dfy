/** The handful of Python `str` operations the scripts rely on: `in`,
    `endswith`, `split` on one character, `replace`, slicing with a negative
    end, and `int()` on a decimal string. */
module Strings {
  import opened Wrappers

  predicate StartsWith(s: string, p: string) {
    |p| <= |s| && s[..|p|] == p
  }

  /** `s.endswith(p)` */
  predicate EndsWith(s: string, p: string) {
    |p| <= |s| && s[|s| - |p|..] == p
  }

  /** `p in s`: `p` occurs at some position of `s`. */
  predicate Contains(s: string, p: string)
    decreases |s|
  {
    StartsWith(s, p) || (|s| > 0 && Contains(s[1..], p))
  }

  lemma {:induction false} ContainsAt(s: string, p: string, i: nat)
    requires i + |p| <= |s| && s[i..i + |p|] == p
    ensures Contains(s, p)
    decreases i
  {
    if i > 0 {
      assert s[1..][i - 1..i - 1 + |p|] == s[i..i + |p|];
      ContainsAt(s[1..], p, i - 1);
    }
  }

  lemma {:induction false} ContainsWitness(s: string, p: string) returns (i: nat)
    requires Contains(s, p)
    ensures i + |p| <= |s| && s[i..i + |p|] == p
    decreases |s|
  {
    if StartsWith(s, p) {
      i := 0;
    } else {
      var j := ContainsWitness(s[1..], p);
      i := j + 1;
      assert s[i..i + |p|] == s[1..][j..j + |p|];
    }
  }

  /** A text lacking one of the pattern's characters does not contain it. */
  lemma NotContainsChar(s: string, p: string, ch: char)
    requires ch in p && ch !in s
    ensures !Contains(s, p)
  {
    if Contains(s, p) {
      var i := ContainsWitness(s, p);
    }
  }

  /** A text that contains `a + b` contains `b`. */
  lemma ContainsSuffixPart(s: string, a: string, b: string)
    requires Contains(s, a + b)
    ensures Contains(s, b)
  {
    var i := ContainsWitness(s, a + b);
    assert s[i + |a|..i + |a| + |b|] == (a + b)[|a|..];
    ContainsAt(s, b, i + |a|);
  }

  // ---------------------------------------------------------------------
  // str.split(c) and its inverse, c.join(parts)
  // ---------------------------------------------------------------------

  /** `c.join(parts)` */
  function Join(parts: seq<string>, c: char): string
    requires |parts| >= 1
  {
    if |parts| == 1 then parts[0] else parts[0] + [c] + Join(parts[1..], c)
  }

  /** `s.split(c)`: the maximal runs of `s` between occurrences of `c`. */
  function Split(s: string, c: char): (parts: seq<string>)
    ensures |parts| >= 1
    ensures forall i :: 0 <= i < |parts| ==> c !in parts[i]
    ensures Join(parts, c) == s
    decreases |s|
  {
    if |s| == 0 then [""]
    else if s[0] == c then
      var rest := Split(s[1..], c);
      assert s == [c] + s[1..];
      [""] + rest
    else
      var rest := Split(s[1..], c);
      var parts := [[s[0]] + rest[0]] + rest[1..];
      assert parts[1..] == rest[1..];
      assert s == [s[0]] + s[1..];
      parts
  }

  lemma {:induction false} SplitNoSeparator(s: string, c: char)
    requires c !in s
    ensures Split(s, c) == [s]
    decreases |s|
  {
    if |s| > 0 {
      assert c !in s[1..];
      SplitNoSeparator(s[1..], c);
    }
  }

  lemma {:induction false} SplitAfterPart(a: string, t: string, c: char)
    requires c !in a
    ensures Split(a + [c] + t, c) == [a] + Split(t, c)
    decreases |a|
  {
    if |a| == 0 {
      assert a + [c] + t == [c] + t;
      assert ([c] + t)[1..] == t;
    } else {
      var s := a + [c] + t;
      assert s[0] == a[0] && s[1..] == a[1..] + [c] + t;
      SplitAfterPart(a[1..], t, c);
      assert [a[0]] + a[1..] == a;
    }
  }

  /** Splitting undoes joining parts free of the separator. */
  lemma {:induction false} SplitJoin(parts: seq<string>, c: char)
    requires |parts| >= 1
    requires forall i :: 0 <= i < |parts| ==> c !in parts[i]
    ensures Split(Join(parts, c), c) == parts
    decreases |parts|
  {
    if |parts| == 1 {
      SplitNoSeparator(parts[0], c);
    } else {
      SplitJoin(parts[1..], c);
      SplitAfterPart(parts[0], Join(parts[1..], c), c);
    }
  }

  lemma {:induction false} JoinEndsWithLast(parts: seq<string>, c: char)
    requires |parts| >= 1
    ensures EndsWith(Join(parts, c), parts[|parts| - 1])
    decreases |parts|
  {
    if |parts| > 1 {
      JoinEndsWithLast(parts[1..], c);
      var j := Join(parts[1..], c);
      var x := parts[|parts| - 1];
      assert (parts[0] + [c] + j)[|parts[0] + [c] + j| - |x|..] == j[|j| - |x|..];
    }
  }

  /** `s.split(c)[0]`: the text before the first `c`, or all of `s`. */
  function FirstSegment(s: string, c: char): string
    decreases |s|
  {
    if |s| == 0 || s[0] == c then "" else [s[0]] + FirstSegment(s[1..], c)
  }

  /** `s.split(c)[-1]`: the text after the last `c`, or all of `s`. */
  function LastSegment(s: string, c: char): string
    decreases |s|
  {
    if |s| == 0 || s[|s| - 1] == c then "" else LastSegment(s[..|s| - 1], c) + [s[|s| - 1]]
  }

  /** The first segment is a prefix free of `c`, followed by `c` unless it
      is all of `s`. */
  lemma {:induction false} FirstSegmentSpec(s: string, c: char)
    ensures var r := FirstSegment(s, c);
      && c !in r && StartsWith(s, r)
      && (|r| < |s| ==> s[|r|] == c)
      && (c !in s ==> r == s)
    decreases |s|
  {
    if |s| > 0 && s[0] != c {
      FirstSegmentSpec(s[1..], c);
      assert s == [s[0]] + s[1..];
    }
  }

  /** The last segment is a suffix free of `c`, preceded by `c` unless it
      is all of `s`. */
  lemma {:induction false} LastSegmentSpec(s: string, c: char)
    ensures var r := LastSegment(s, c);
      && c !in r && EndsWith(s, r)
      && (|r| < |s| ==> s[|s| - |r| - 1] == c)
      && (c !in s ==> r == s)
    decreases |s|
  {
    if |s| > 0 && s[|s| - 1] != c {
      LastSegmentSpec(s[..|s| - 1], c);
      assert s == s[..|s| - 1] + [s[|s| - 1]];
    }
  }

  /** The first segment is the only prefix free of `c` that ends at a `c` or
      at the end of `s`. */
  lemma FirstSegmentUnique(s: string, c: char, r: string)
    requires c !in r && StartsWith(s, r) && (|r| < |s| ==> s[|r|] == c)
    ensures FirstSegment(s, c) == r
  {
    FirstSegmentSpec(s, c);
    var q := FirstSegment(s, c);
  }

  /** The last segment is the only suffix free of `c` that starts after a
      `c` or at the start of `s`. */
  lemma LastSegmentUnique(s: string, c: char, r: string)
    requires c !in r && EndsWith(s, r) && (|r| < |s| ==> s[|s| - |r| - 1] == c)
    ensures LastSegment(s, c) == r
  {
    LastSegmentSpec(s, c);
    var q := LastSegment(s, c);
  }

  /** The text after the first `c` of `s`, or `""` if there is none. */
  function AfterFirst(s: string, c: char): string
    decreases |s|
  {
    if |s| == 0 then "" else if s[0] == c then s[1..] else AfterFirst(s[1..], c)
  }

  /** A text holding `c` is its first segment, `c`, and what follows. */
  lemma {:induction false} FirstSegmentAfterFirst(s: string, c: char)
    requires c in s
    ensures s == FirstSegment(s, c) + [c] + AfterFirst(s, c)
    decreases |s|
  {
    if s[0] != c {
      FirstSegmentAfterFirst(s[1..], c);
      assert s == [s[0]] + s[1..];
    }
  }

  /** `s.split(c)[1]`, when there is one, is the first segment of the text
      after the first `c`. */
  lemma SecondPart(s: string, c: char)
    requires c in s
    ensures |Split(s, c)| >= 2 && Split(s, c)[1] == FirstSegment(AfterFirst(s, c), c)
  {
    var a := FirstSegment(s, c);
    FirstSegmentSpec(s, c);
    FirstSegmentAfterFirst(s, c);
    SplitAfterPart(a, AfterFirst(s, c), c);
    FirstSegmentSplit(AfterFirst(s, c), c);
  }

  /** `s.split(c)` has a second part exactly when `c` occurs in `s`. */
  lemma SecondPartIff(s: string, c: char)
    ensures |Split(s, c)| >= 2 <==> c in s
    ensures c in s ==> Split(s, c)[1] == FirstSegment(AfterFirst(s, c), c)
  {
    if c in s {
      SecondPart(s, c);
    } else {
      SplitNoSeparator(s, c);
    }
  }

  /** `FirstSegment` is the first part of `Split`. */
  lemma FirstSegmentSplit(s: string, c: char)
    ensures FirstSegment(s, c) == Split(s, c)[0]
  {
    var parts := Split(s, c);
    if c !in s {
      SplitNoSeparator(s, c);
      FirstSegmentSpec(s, c);
    } else {
      assert s == parts[0] + [c] + Join(parts[1..], c);
      FirstSegmentUnique(s, c, parts[0]);
    }
  }

  /** `LastSegment` is the last part of `Split`. */
  lemma LastSegmentSplit(s: string, c: char)
    ensures LastSegment(s, c) == Split(s, c)[|Split(s, c)| - 1]
  {
    var parts := Split(s, c);
    JoinEndsWithLast(parts, c);
    if c !in s {
      SplitNoSeparator(s, c);
      LastSegmentSpec(s, c);
    } else {
      LastSegmentPrecededBySeparator(parts, c);
      LastSegmentUnique(s, c, parts[|parts| - 1]);
    }
  }

  lemma {:induction false} LastSegmentPrecededBySeparator(parts: seq<string>, c: char)
    requires |parts| >= 2
    ensures var s := Join(parts, c); var r := parts[|parts| - 1];
      |r| < |s| && s[|s| - |r| - 1] == c
    decreases |parts|
  {
    var r := parts[|parts| - 1];
    if |parts| == 2 {
      assert Join(parts, c) == parts[0] + [c] + r;
    } else {
      LastSegmentPrecededBySeparator(parts[1..], c);
      var j := Join(parts[1..], c);
      assert Join(parts, c) == parts[0] + [c] + j;
      assert (parts[0] + [c] + j)[|parts[0] + [c] + j| - |r| - 1] == j[|j| - |r| - 1];
    }
  }

  // ---------------------------------------------------------------------
  // str.replace(p, r)
  // ---------------------------------------------------------------------

  /** `s.replace(p, r)`: scans left to right, replacing each non-overlapping
      occurrence of `p`. */
  function Replace(s: string, p: string, r: string): (out: string)
    requires |p| > 0
    ensures !Contains(s, p) ==> out == s
    ensures |p| <= |r| ==> |s| <= |out|
    ensures |p| == |r| ==> |out| == |s|
    decreases |s|
  {
    if |s| == 0 then ""
    else if StartsWith(s, p) then r + Replace(s[|p|..], p, r)
    else [s[0]] + Replace(s[1..], p, r)
  }

  /** The first occurrence of `p` is replaced by `r` and the text before it
      is kept: when `p` occurs nowhere in `a + p` but at its end, replacing
      in `a + p + b` gives `a + r` followed by the replaced `b`. */
  lemma {:induction false} ReplaceAt(a: string, p: string, r: string, b: string)
    requires |p| > 0
    requires !Contains(a + p[..|p| - 1], p)
    ensures Replace(a + p + b, p, r) == a + r + Replace(b, p, r)
    decreases |a|
  {
    if |a| == 0 {
      ReplaceAtStart(p, r, b);
      assert a + p + b == p + b && a + r + Replace(b, p, r) == r + Replace(b, p, r);
    } else {
      ReplaceAtStep(a, p, r, b);
      ReplaceAt(a[1..], p, r, b);
      ConsConcat(a, r, Replace(b, p, r));
    }
  }

  lemma ConsConcat(a: string, x: string, y: string)
    requires |a| > 0
    ensures [a[0]] + (a[1..] + x + y) == a + x + y
  {
    assert a == [a[0]] + a[1..];
  }

  lemma ReplaceAtStart(p: string, r: string, b: string)
    requires |p| > 0
    ensures Replace(p + b, p, r) == r + Replace(b, p, r)
  {
    var s := p + b;
    assert s[..|p|] == p && s[|p|..] == b;
  }

  /** The step of `ReplaceAt` past a character of `a`. */
  lemma ReplaceAtStep(a: string, p: string, r: string, b: string)
    requires |p| > 0 && |a| > 0
    requires !Contains(a + p[..|p| - 1], p)
    ensures !Contains(a[1..] + p[..|p| - 1], p)
    ensures Replace(a + p + b, p, r) == [a[0]] + Replace(a[1..] + p + b, p, r)
  {
    var s := a + p + b;
    var x := a + p[..|p| - 1];
    assert !StartsWith(s, p) by {
      assert s[..|p|] == x[..|p|];
    }
    assert x[1..] == a[1..] + p[..|p| - 1];
    assert s[1..] == a[1..] + p + b;
  }

  /** Every text containing `p` splits at the first occurrence, the shape
      `ReplaceAt` takes apart. */
  lemma {:induction false} FirstOccurrence(s: string, p: string) returns (a: string, b: string)
    requires |p| > 0 && Contains(s, p)
    ensures s == a + p + b && !Contains(a + p[..|p| - 1], p)
    decreases |s|
  {
    if StartsWith(s, p) {
      a, b := "", s[|p|..];
      FirstAtStart(s, p);
      assert a + p + b == p + b && a + p[..|p| - 1] == p[..|p| - 1];
    } else {
      var a', b' := FirstOccurrence(s[1..], p);
      a, b := [s[0]] + a', b';
      ConsConcat(s, "", "");
      ConsConcat(a, p, b);
      FirstKeptNoStart(s, a, p, b);
    }
  }

  lemma FirstAtStart(s: string, p: string)
    requires |p| > 0 && StartsWith(s, p)
    ensures s == p + s[|p|..] && !Contains(p[..|p| - 1], p)
  {
    ShorterNotContains(p[..|p| - 1], p);
    assert s[..|p|] == p;
  }

  /** The step of `FirstOccurrence` that moves past a character. */
  lemma FirstKeptNoStart(s: string, a: string, p: string, b: string)
    requires |p| > 0 && |a| > 0 && s == a + p + b
    requires !StartsWith(s, p) && !Contains(a[1..] + p[..|p| - 1], p)
    ensures !Contains(a + p[..|p| - 1], p)
  {
    var x := a + p[..|p| - 1];
    assert x == s[..|x|];
    assert x[..|p|] == s[..|p|];
    assert x[1..] == a[1..] + p[..|p| - 1];
  }

  lemma {:induction false} ShorterNotContains(s: string, p: string)
    requires |s| < |p|
    ensures !Contains(s, p)
    decreases |s|
  {
    if |s| > 0 {
      ShorterNotContains(s[1..], p);
    }
  }

  lemma ReplaceFirst(s: string, p: string, r: string)
    requires |p| > 0 && |r| > 0 && |s| > 0
    ensures |Replace(s, p, r)| > 0
    ensures Replace(s, p, r)[0] == if StartsWith(s, p) then r[0] else s[0]
  {
  }

  /** If the result starts with `w`, and `w` does not contain the first
      character of the replacement, then no replacement happened inside the
      first `|w|` characters and `s` itself starts with `w`. */
  lemma {:induction false} ReplacePrefix(s: string, p: string, r: string, w: string)
    requires |p| > 0 && |r| > 0
    requires r[0] !in w
    requires StartsWith(Replace(s, p, r), w)
    ensures StartsWith(s, w)
    decreases |s|
  {
    if |w| > 0 && |s| > 0 {
      ReplaceFirst(s, p, r);
      var t := Replace(s[1..], p, r);
      assert Replace(s, p, r) == [s[0]] + t;
      assert t[..|w| - 1] == w[1..];
      ReplacePrefix(s[1..], p, r, w[1..]);
      assert s[..|w|] == [s[0]] + s[1..][..|w| - 1];
    }
  }

  /** `Contains` through a prefix none of whose characters starts the pattern. */
  lemma {:induction false} ContainsPastPrefix(x: string, t: string, p: string)
    requires |p| > 0 && p[0] !in x
    requires Contains(x + t, p)
    ensures Contains(t, p)
    decreases |x|
  {
    if |x| > 0 {
      assert !StartsWith(x + t, p) by { assert (x + t)[0] == x[0]; }
      assert (x + t)[1..] == x[1..] + t;
      ContainsPastPrefix(x[1..], t, p);
    } else {
      assert x + t == t;
    }
  }

  /** Replacing one pattern does not create occurrences of another one `q`,
      when `q` does not start inside the replacement and the replacement does
      not start inside `q`. */
  lemma {:induction false} ReplaceKeepsAbsent(s: string, p: string, r: string, q: string)
    requires |p| > 0 && |r| > 0 && |q| > 0
    requires q[0] !in r && r[0] !in q
    requires !Contains(s, q)
    ensures !Contains(Replace(s, p, r), q)
    decreases |s|
  {
    if |s| > 0 {
      assert !Contains(s[1..], q);
      if StartsWith(s, p) {
        NotContainsSuffix(s, q, |p|);
        ReplaceKeepsAbsent(s[|p|..], p, r, q);
        if Contains(r + Replace(s[|p|..], p, r), q) {
          ContainsPastPrefix(r, Replace(s[|p|..], p, r), q);
        }
      } else {
        var t := Replace(s[1..], p, r);
        ReplaceKeepsAbsent(s[1..], p, r, q);
        assert Replace(s, p, r) == [s[0]] + t;
        if StartsWith([s[0]] + t, q) {
          assert t[..|q| - 1] == q[1..];
          assert r[0] !in q[1..];
          ReplacePrefix(s[1..], p, r, q[1..]);
        }
        assert ([s[0]] + t)[1..] == t;
      }
    }
  }

  lemma {:induction false} NotContainsSuffix(s: string, q: string, k: nat)
    requires k <= |s|
    requires !Contains(s, q)
    ensures !Contains(s[k..], q)
    decreases k
  {
    if k > 0 {
      NotContainsSuffix(s[1..], q, k - 1);
      assert s[1..][k - 1..] == s[k..];
    }
  }

  /** After `replace`, no occurrence of the pattern is left, provided the
      replacement starts with the pattern's first character, that character
      occurs nowhere else in either, and the replacement is at least as long
      as the pattern without starting with it. */
  lemma {:induction false} ReplaceRemoves(s: string, p: string, r: string)
    requires |p| > 0 && |p| <= |r|
    requires r[0] == p[0]
    requires p[0] !in p[1..] && p[0] !in r[1..]
    requires !StartsWith(r, p)
    ensures !Contains(Replace(s, p, r), p)
    decreases |s|
  {
    if |s| > 0 {
      if StartsWith(s, p) {
        ReplaceRemoves(s[|p|..], p, r);
        RemovedAfterReplacement(r, Replace(s[|p|..], p, r), p);
      } else {
        ReplaceRemoves(s[1..], p, r);
        RemovedAfterKept(s, p, r);
      }
    }
  }

  /** The step of `ReplaceRemoves` where an occurrence was replaced. */
  lemma RemovedAfterReplacement(r: string, t: string, p: string)
    requires |p| > 0 && |p| <= |r|
    requires r[0] == p[0] && p[0] !in r[1..]
    requires !StartsWith(r, p)
    requires !Contains(t, p)
    ensures !Contains(r + t, p)
  {
    assert !StartsWith(r + t, p) by {
      assert (r + t)[..|p|] == r[..|p|];
    }
    assert (r + t)[1..] == r[1..] + t;
    if Contains(r + t, p) {
      ContainsPastPrefix(r[1..], t, p);
    }
  }

  /** The step of `ReplaceRemoves` where the first character was kept. */
  lemma RemovedAfterKept(s: string, p: string, r: string)
    requires |s| > 0 && |p| > 0 && |p| <= |r|
    requires r[0] == p[0] && p[0] !in p[1..]
    requires !StartsWith(s, p)
    requires !Contains(Replace(s[1..], p, r), p)
    ensures !Contains(Replace(s, p, r), p)
  {
    KeptNoStart(s, p, r);
    NotContainsCons(s[0], Replace(s[1..], p, r), p);
  }

  /** Where `s` does not start with `p`, `replace` keeps `s[0]` and no
      occurrence of `p` starts there. */
  lemma KeptNoStart(s: string, p: string, r: string)
    requires |s| > 0 && |p| > 0 && |r| > 0
    requires r[0] == p[0] && p[0] !in p[1..]
    requires !StartsWith(s, p)
    ensures Replace(s, p, r) == [s[0]] + Replace(s[1..], p, r)
    ensures !StartsWith([s[0]] + Replace(s[1..], p, r), p)
  {
    StartReflected(s, p, r);
  }

  /** An occurrence of `p` at the start of `[s[0]] + replace(s[1:])` was
      already one in `s`. */
  lemma StartReflected(s: string, p: string, r: string)
    requires |s| > 0 && |p| > 0 && |r| > 0
    requires r[0] == p[0] && p[0] !in p[1..]
    ensures StartsWith([s[0]] + Replace(s[1..], p, r), p) ==> StartsWith(s, p)
  {
    var t := Replace(s[1..], p, r);
    if StartsWith([s[0]] + t, p) {
      assert t[..|p| - 1] == p[1..];
      ReplacePrefix(s[1..], p, r, p[1..]);
      assert s[..|p|] == [s[0]] + s[1..][..|p| - 1];
    }
  }

  lemma NotContainsCons(c: char, t: string, p: string)
    requires !StartsWith([c] + t, p) && !Contains(t, p)
    ensures !Contains([c] + t, p)
  {
    assert ([c] + t)[1..] == t;
  }

  /** `s[:-k]` for `k > 0`: everything but the last `k` characters, or the
      empty string when `s` is shorter. */
  function DropLast(s: string, k: nat): (r: string)
    ensures k <= |s| ==> r + s[|s| - k..] == s
    ensures |s| < k ==> r == ""
  {
    if k <= |s| then s[..|s| - k] else ""
  }

  // ---------------------------------------------------------------------
  // int(s) for decimal strings, and its inverse str(n)
  // ---------------------------------------------------------------------

  predicate IsDigit(ch: char) {
    '0' <= ch <= '9'
  }

  /** The ASCII characters `int()` ignores around a number. */
  predicate IsSpace(ch: char) {
    ch == ' ' || ch == '\t' || ch == '\n' || ch == '\r' || ch as int == 11 || ch as int == 12
  }

  function TrimStart(s: string): string
    decreases |s|
  {
    if |s| > 0 && IsSpace(s[0]) then TrimStart(s[1..]) else s
  }

  function TrimEnd(s: string): string
    decreases |s|
  {
    if |s| > 0 && IsSpace(s[|s| - 1]) then TrimEnd(s[..|s| - 1]) else s
  }

  /** A non-empty run of decimal digits. */
  predicate IsDigitRun(d: string) {
    |d| > 0 && forall i :: 0 <= i < |d| ==> IsDigit(d[i])
  }

  function DigitValue(ch: char): nat
    requires IsDigit(ch)
  {
    ch as int - '0' as int
  }

  /** The decimal value of the digits in `d`. */
  function RunValue(d: string): nat
    requires forall i :: 0 <= i < |d| ==> IsDigit(d[i])
    decreases |d|
  {
    if |d| == 0 then 0 else RunValue(d[..|d| - 1]) * 10 + DigitValue(d[|d| - 1])
  }

  /** `int(s)`: `None` where Python raises `ValueError`. */
  function ParseInt(s: string): (r: Option<int>)
    ensures r.Some? ==> exists i :: 0 <= i < |s| && IsDigit(s[i])
    ensures r.Some? && r.value < 0 ==> '-' in s
  {
    var t := TrimEnd(TrimStart(s));
    var signed := |t| > 0 && (t[0] == '-' || t[0] == '+');
    var d := if signed then t[1..] else t;
    if IsDigitRun(d) then
      TrimSlices(s);
      var at := |s| - |TrimStart(s)| + (if signed then 1 else 0);
      assert s[at] == d[0];
      assert signed ==> s[at - 1] == t[0];
      Some(if signed && t[0] == '-' then -(RunValue(d) as int) else RunValue(d))
    else None
  }

  /** Trimming keeps a slice of the text. */
  lemma TrimSlices(s: string)
    ensures var u := TrimStart(s); |u| <= |s| && u == s[|s| - |u|..]
    ensures var u := TrimStart(s); var t := TrimEnd(u); |t| <= |u| && t == u[..|t|]
  {
    TrimStartSlice(s);
    TrimEndSlice(TrimStart(s));
  }

  lemma {:induction false} TrimStartSlice(s: string)
    ensures |TrimStart(s)| <= |s| && TrimStart(s) == s[|s| - |TrimStart(s)|..]
    decreases |s|
  {
    if |s| > 0 && IsSpace(s[0]) {
      TrimStartSlice(s[1..]);
    }
  }

  lemma {:induction false} TrimEndSlice(s: string)
    ensures |TrimEnd(s)| <= |s| && TrimEnd(s) == s[..|TrimEnd(s)|]
    decreases |s|
  {
    if |s| > 0 && IsSpace(s[|s| - 1]) {
      TrimEndSlice(s[..|s| - 1]);
    }
  }

  function DigitChar(k: nat): (ch: char)
    requires k < 10
    ensures IsDigit(ch) && DigitValue(ch) == k
  {
    ('0' as int + k) as char
  }

  /** `str(n)` for a natural number. */
  function NatToString(n: nat): (s: string)
    ensures |s| > 0
    ensures forall i :: 0 <= i < |s| ==> IsDigit(s[i])
    ensures IsDigitRun(s) && RunValue(s) == n
  {
    if n < 10 then [DigitChar(n)]
    else
      var s := NatToString(n / 10) + [DigitChar(n % 10)];
      assert s[..|s| - 1] == NatToString(n / 10);
      s
  }

  /** `str(n)` */
  function IntToString(n: int): string {
    if n < 0 then "-" + NatToString(-n) else NatToString(n)
  }

  /** Text with no surrounding whitespace survives `strip()`. */
  lemma TrimKeeps(s: string)
    requires |s| > 0 && !IsSpace(s[0]) && !IsSpace(s[|s| - 1])
    ensures TrimEnd(TrimStart(s)) == s
  {
  }

  /** `int(d)` for a run of digits. */
  lemma ParseDigits(d: string)
    requires IsDigitRun(d)
    ensures ParseInt(d) == Some(RunValue(d) as int)
  {
    TrimKeeps(d);
  }

  /** `int("-" + d)` for a run of digits. */
  lemma ParseNegDigits(d: string)
    requires IsDigitRun(d)
    ensures ParseInt("-" + d) == Some(-(RunValue(d) as int))
  {
    var s := "-" + d;
    assert TrimEnd(TrimStart(s)) == s by {
      assert s[0] == '-' && s[|s| - 1] == d[|d| - 1];
      TrimKeeps(s);
    }
    assert s[1..] == d;
    ParseNegative(s);
  }

  lemma ParseNegative(t: string)
    requires |t| > 0 && t[0] == '-' && TrimEnd(TrimStart(t)) == t && IsDigitRun(t[1..])
    ensures ParseInt(t) == Some(-(RunValue(t[1..]) as int))
  {
  }

  /** `int(str(n)) == n` */
  lemma ParseIntToString(n: int)
    ensures ParseInt(IntToString(n)) == Some(n)
  {
    if n < 0 {
      ParseNegDigits(NatToString(-n));
    } else {
      ParseDigits(NatToString(n));
    }
  }
}
