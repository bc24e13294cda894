/**
 * The Python string operations the lexicon and vocabulary code relies on:
 * `str.split(sep)`, `str.split()`, `str.strip()` and slicing with `[:n]`.
 */
module PyStrings {
  import opened Wrappers

  /** `sep` occurs in `s` starting at position `i`. */
  predicate At(s: string, sep: string, i: nat) {
    i + |sep| <= |s| && s[i..i + |sep|] == sep
  }

  ghost predicate Occurs(s: string, sep: string) {
    exists i: nat :: At(s, sep, i)
  }

  /** `str.find`: the first position at which `sep` occurs in `s`. */
  function Find(s: string, sep: string): (r: Option<nat>)
    ensures r.Some? ==> At(s, sep, r.value) && forall j: nat :: j < r.value ==> !At(s, sep, j)
    ensures r.None? ==> !Occurs(s, sep)
  {
    FindFrom(s, sep, 0)
  }

  function FindFrom(s: string, sep: string, i: nat): (r: Option<nat>)
    requires forall j: nat :: j < i ==> !At(s, sep, j)
    ensures r.Some? ==> At(s, sep, r.value) && forall j: nat :: j < r.value ==> !At(s, sep, j)
    ensures r.None? ==> !Occurs(s, sep)
    decreases |s| + 1 - i
  {
    if i + |sep| > |s| then None
    else if s[i..i + |sep|] == sep then Some(i)
    else FindFrom(s, sep, i + 1)
  }

  /** `s.split(sep)` for a non-empty separator: the pieces between the leftmost non-overlapping occurrences. */
  function Split(s: string, sep: string): (parts: seq<string>)
    requires sep != []
    ensures |parts| >= 1
    decreases |s|
  {
    match Find(s, sep)
    case None => [s]
    case Some(i) => [s[..i]] + Split(s[i + |sep|..], sep)
  }

  /** `sep.join(parts)`. */
  function Join(parts: seq<string>, sep: string): string
    requires |parts| >= 1
  {
    if |parts| == 1 then parts[0] else parts[0] + sep + Join(parts[1..], sep)
  }

  /** Splitting loses nothing: joining the pieces with the separator gives the string back. */
  lemma {:induction false} SplitJoin(s: string, sep: string)
    requires sep != []
    ensures Join(Split(s, sep), sep) == s
    decreases |s|
  {
    match Find(s, sep)
    case None =>
    case Some(i) =>
      var rest := s[i + |sep|..];
      var tail := Split(rest, sep);
      SplitJoin(rest, sep);
      var parts := [s[..i]] + tail;
      assert parts[1..] == tail;
      calc {
        Join(parts, sep);
        s[..i] + sep + Join(tail, sep);
        s[..i] + s[i..i + |sep|] + rest;
        { assert s == s[..i] + s[i..i + |sep|] + rest; }
        s;
      }
  }

  /** No piece of a split contains the separator. */
  lemma {:induction false} SplitPiecesAreFree(s: string, sep: string)
    requires sep != []
    ensures forall p :: p in Split(s, sep) ==> !Occurs(p, sep)
    decreases |s|
  {
    match Find(s, sep)
    case None =>
    case Some(i) =>
      SplitPiecesAreFree(s[i + |sep|..], sep);
      var head := s[..i];
      forall j: nat ensures !At(head, sep, j) {
        if j + |sep| <= |head| {
          assert head[j..j + |sep|] == s[j..j + |sep|];
          assert !At(s, sep, j);
        }
      }
      assert Split(s, sep) == [head] + Split(s[i + |sep|..], sep);
  }

  /** A string is split at a separator when nothing before it starts an occurrence. */
  lemma SplitAtFirst(a: string, sep: string, b: string)
    requires sep != []
    requires forall j: nat :: j < |a| ==> !At(a + sep + b, sep, j)
    ensures Split(a + sep + b, sep) == [a] + Split(b, sep)
  {
    var s := a + sep + b;
    assert At(s, sep, |a|) by {
      assert s[|a|..|a| + |sep|] == sep;
    }
    assert s[..|a|] == a && s[|a| + |sep|..] == b;
  }

  /** Python's `str.isspace`: the characters that `split()` and `strip()` treat as white space. */
  predicate IsSpace(c: char) {
    || c == ' '
    || '\t' <= c <= '\r'
    || '\U{1C}' <= c <= '\U{1F}'
    || c == '\U{85}' || c == '\U{A0}' || c == '\U{1680}'
    || '\U{2000}' <= c <= '\U{200A}'
    || c == '\U{2028}' || c == '\U{2029}' || c == '\U{202F}' || c == '\U{205F}' || c == '\U{3000}'
  }

  predicate NoSpace(s: string) {
    forall i :: 0 <= i < |s| ==> !IsSpace(s[i])
  }

  /** The length of the run of non-space characters at the front of `s`. */
  function RunLength(s: string): (n: nat)
    ensures n <= |s| && NoSpace(s[..n])
    ensures n < |s| ==> IsSpace(s[n])
  {
    if s == [] || IsSpace(s[0]) then 0
    else
      var n := RunLength(s[1..]);
      assert s[..n + 1] == [s[0]] + s[1..][..n];
      n + 1
  }

  /** `s.split()`: the maximal runs of non-space characters, in order. */
  function Words(s: string): (ws: seq<string>)
    decreases |s|
  {
    if s == [] then []
    else if IsSpace(s[0]) then Words(s[1..])
    else
      var n := RunLength(s);
      [s[..n]] + Words(s[n..])
  }

  /** The characters of `s` that are not white space, in order. */
  function Unspaced(s: string): string {
    if s == [] then [] else (if IsSpace(s[0]) then [] else [s[0]]) + Unspaced(s[1..])
  }

  function Concat(ws: seq<string>): string {
    if ws == [] then [] else ws[0] + Concat(ws[1..])
  }

  /**
   * What `split()` returns: non-empty words free of white space which, put
   * together, are exactly the non-space characters of the line.
   */
  lemma {:induction false} WordsAreTheUnspacedText(s: string)
    ensures forall w :: w in Words(s) ==> w != [] && NoSpace(w)
    ensures Concat(Words(s)) == Unspaced(s)
    decreases |s|
  {
    if s != [] {
      if IsSpace(s[0]) {
        WordsAreTheUnspacedText(s[1..]);
      } else {
        var n := RunLength(s);
        WordsAreTheUnspacedText(s[n..]);
        UnspacedOfRun(s, n);
      }
    }
  }

  lemma {:induction false} UnspacedOfRun(s: string, n: nat)
    requires n <= |s| && NoSpace(s[..n])
    ensures Unspaced(s) == s[..n] + Unspaced(s[n..])
    decreases n
  {
    if n > 0 {
      assert s[1..][..n - 1] == s[1..n];
      UnspacedOfRun(s[1..], n - 1);
      assert s[1..][n - 1..] == s[n..];
      assert s[..n] == [s[0]] + s[1..n];
    }
  }

  /** `s.strip()`: `s` without its leading and trailing white space. */
  function Strip(s: string): (r: string)
    ensures r != [] ==> !IsSpace(r[0]) && !IsSpace(r[|r| - 1])
  {
    s[StripStart(s)..StripEnd(s)]
  }

  /** Where the stripped text starts: after the leading white space. */
  function StripStart(s: string): (i: nat)
    ensures i <= |s| && AllSpace(s[..i])
    ensures i < |s| ==> !IsSpace(s[i])
  {
    LeadingSpace(s)
  }

  /** Where the stripped text ends: before the trailing white space, and never before it starts. */
  function StripEnd(s: string): (j: nat)
    ensures StripStart(s) <= j <= |s| && AllSpace(s[j..])
    ensures StripStart(s) < j ==> !IsSpace(s[j - 1])
  {
    var i := StripStart(s);
    var j := |s| - TrailingSpace(s[i..]);
    assert s[i..][j - i..] == s[j..];
    j
  }

  /** Stripping removes white space only, and only at the two ends. */
  lemma StripTrimsTheEnds(s: string)
    ensures exists i, j :: && 0 <= i <= j <= |s| && Strip(s) == s[i..j]
                           && AllSpace(s[..i]) && AllSpace(s[j..])
  {
    assert Strip(s) == s[StripStart(s)..StripEnd(s)];
  }

  predicate AllSpace(s: string) {
    forall i :: 0 <= i < |s| ==> IsSpace(s[i])
  }

  function LeadingSpace(s: string): (n: nat)
    ensures n <= |s| && AllSpace(s[..n])
    ensures n < |s| ==> !IsSpace(s[n])
  {
    if s == [] || !IsSpace(s[0]) then 0
    else
      var n := LeadingSpace(s[1..]);
      assert s[..n + 1] == [s[0]] + s[1..][..n];
      n + 1
  }

  function TrailingSpace(s: string): (n: nat)
    ensures n <= |s| && AllSpace(s[|s| - n..])
    ensures n < |s| ==> !IsSpace(s[|s| - n - 1])
  {
    if s == [] || !IsSpace(s[|s| - 1]) then 0
    else
      var n := TrailingSpace(s[..|s| - 1]);
      TrailingSpaceGrows(s, n);
      n + 1
  }

  lemma TrailingSpaceGrows(s: string, n: nat)
    requires s != [] && IsSpace(s[|s| - 1]) && n < |s|
    requires AllSpace(s[..|s| - 1][|s| - 1 - n..])
    requires n < |s| - 1 ==> !IsSpace(s[..|s| - 1][|s| - 2 - n])
    ensures AllSpace(s[|s| - (n + 1)..])
    ensures n + 1 < |s| ==> !IsSpace(s[|s| - n - 2])
  {
    var t := s[..|s| - 1];
    var u := s[|s| - (n + 1)..];
    forall k | 0 <= k < |u| ensures IsSpace(u[k]) {
      if k < n {
        assert u[k] == t[|t| - n..][k];
      }
    }
  }

  /** Stripping before a white-space split changes nothing: `s.strip().split() == s.split()`. */
  lemma WordsOfStrip(s: string)
    ensures Words(Strip(s)) == Words(s)
  {
    WordsOfTrimmed(s, StripStart(s), StripEnd(s));
  }

  lemma WordsOfTrimmed(s: string, i: nat, j: nat)
    requires i <= j <= |s| && AllSpace(s[..i]) && AllSpace(s[j..])
    ensures Words(s[i..j]) == Words(s)
  {
    WordsSkipSpace(s, i);
    assert s[i..] == s[i..j] + s[j..];
    WordsDropSpace(s[i..j], s[j..]);
  }

  lemma {:induction false} WordsSkipSpace(s: string, i: nat)
    requires i <= |s| && AllSpace(s[..i])
    ensures Words(s) == Words(s[i..])
    decreases i
  {
    if i > 0 {
      var t := s[1..];
      assert IsSpace(s[..i][0]);
      assert Words(s) == Words(t);
      assert AllSpace(t[..i - 1]) by {
        forall k | 0 <= k < i - 1 ensures IsSpace(t[k]) {
          assert t[k] == s[..i][k + 1];
        }
      }
      WordsSkipSpace(t, i - 1);
      assert t[i - 1..] == s[i..];
    }
  }

  /** White space at the end adds no word. */
  lemma {:induction false} WordsDropSpace(s: string, t: string)
    requires AllSpace(t)
    ensures Words(s + t) == Words(s)
    decreases |s|
  {
    if s == [] {
      assert s + t == t;
      WordsSkipSpace(t, |t|);
    } else if IsSpace(s[0]) {
      assert (s + t)[1..] == s[1..] + t;
      WordsDropSpace(s[1..], t);
    } else {
      var n := RunLength(s);
      var m := RunLength(s + t);
      RunLengthExtend(s, t);
      assert (s + t)[..n] == s[..n];
      assert (s + t)[n..] == s[n..] + t;
      WordsDropSpace(s[n..], t);
    }
  }

  lemma RunLengthExtend(s: string, t: string)
    requires AllSpace(t)
    ensures RunLength(s + t) == RunLength(s)
  {
    var n := RunLength(s);
    var m := RunLength(s + t);
    assert (s + t)[..n] == s[..n];
    if n < |s| {
      assert (s + t)[n] == s[n];
    } else if n < |s + t| {
      assert (s + t)[n] == t[0];
    }
  }

  /** Python's `s[:n]`, where a negative `n` counts from the end. */
  function PrefixSlice<T>(s: seq<T>, n: int): (r: seq<T>)
    ensures |r| <= |s| && r == s[..|r|]
    ensures n >= 0 ==> |r| == if n < |s| then n else |s|
    ensures n < 0 ==> |r| == if |s| + n > 0 then |s| + n else 0
  {
    if n >= 0 then (if n < |s| then s[..n] else s)
    else if |s| + n > 0 then s[..|s| + n] else []
  }

  /** Python's `s[:-1]`: everything but the last character, and nothing for the empty string. */
  function DropLast<T>(s: seq<T>): (r: seq<T>)
    ensures s != [] ==> s == r + [s[|s| - 1]]
    ensures s == [] ==> r == []
  {
    PrefixSlice(s, -1)
  }
}
