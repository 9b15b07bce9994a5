/**
 * String helpers shared by every stage of the pipeline: Python's `str.strip()`,
 * `str.lower()`, `sep.join(parts)`, list concatenation and the "first n characters
 * plus an ellipsis" preview that the payload builder and the console views use.
 */
module Strings {

  /** A character that Python's `str.isspace()` and the regex class `\s` accept. */
  predicate IsWhitespace(c: char) {
    || c == ' ' || ('\t' <= c <= '\r')
    || ('\U{1C}' <= c <= '\U{1F}') || c == '\U{85}' || c == '\U{A0}'
    || c == '\U{1680}' || ('\U{2000}' <= c <= '\U{200A}')
    || c == '\U{2028}' || c == '\U{2029}' || c == '\U{202F}' || c == '\U{205F}'
    || c == '\U{3000}'
  }

  /** No whitespace at either end: what `strip()` returns. */
  predicate IsStripped(s: string) {
    s == [] || (!IsWhitespace(s[0]) && !IsWhitespace(s[|s| - 1]))
  }

  /** The number of whitespace characters that open `s`. */
  function LeadCount(s: string): (n: nat)
    ensures n <= |s|
    ensures forall i :: 0 <= i < n ==> IsWhitespace(s[i])
    ensures n < |s| ==> !IsWhitespace(s[n])
  {
    if |s| > 0 && IsWhitespace(s[0]) then 1 + LeadCount(s[1..]) else 0
  }

  /** The number of whitespace characters that close `s`. */
  function TrailCount(s: string): (n: nat)
    ensures n <= |s|
    ensures forall i :: |s| - n <= i < |s| ==> IsWhitespace(s[i])
    ensures n < |s| ==> !IsWhitespace(s[|s| - 1 - n])
  {
    if |s| > 0 && IsWhitespace(s[|s| - 1]) then 1 + TrailCount(s[..|s| - 1]) else 0
  }

  /** Python's `s.strip()`: drop whitespace at both ends and keep the middle slice. */
  function Strip(s: string): (r: string)
    ensures IsStripped(r)
    ensures LeadCount(s) + |r| <= |s|
    ensures r == s[LeadCount(s)..LeadCount(s) + |r|]
  {
    var t := s[LeadCount(s)..];
    var n := TrailCount(t);
    assert n < |t| ==> !IsWhitespace(t[|t| - 1 - n]);
    t[..|t| - n]
  }

  /** Strip removes whitespace only: what lies outside the kept slice is whitespace. */
  lemma StripRemovesWhitespace(s: string)
    ensures forall i :: 0 <= i < LeadCount(s) ==> IsWhitespace(s[i])
    ensures forall i :: LeadCount(s) + |Strip(s)| <= i < |s| ==> IsWhitespace(s[i])
  {
    var k := LeadCount(s);
    var t := s[k..];
    var m := TrailCount(t);
    assert |Strip(s)| == |t| - m;
    forall i | k + |Strip(s)| <= i < |s|
      ensures IsWhitespace(s[i])
    {
      assert s[i] == t[i - k] && |t| - m <= i - k;
    }
  }

  /** Strip leaves a string that has no whitespace at its ends as it is. */
  lemma StripStripped(s: string)
    requires IsStripped(s)
    ensures Strip(s) == s
  {
    if s != [] {
      assert LeadCount(s) == 0;
      assert TrailCount(s) == 0;
    }
  }

  /**
   * A string that opens with a non-space and closes with exactly one space
   * loses only that space to Strip.
   */
  lemma StripOneTrailingSpace(s: string)
    requires |s| >= 2 && !IsWhitespace(s[0])
    requires IsWhitespace(s[|s| - 1]) && !IsWhitespace(s[|s| - 2])
    ensures Strip(s) == s[..|s| - 1]
  {
    assert LeadCount(s) == 0;
    assert s[..|s| - 1][..|s| - 2] == s[..|s| - 2];
    assert TrailCount(s[..|s| - 1]) == 0;
    assert TrailCount(s) == 1;
  }

  /** A string of whitespace only strips to the empty string. */
  lemma StripAllWhitespace(s: string)
    requires forall i :: 0 <= i < |s| ==> IsWhitespace(s[i])
    ensures Strip(s) == ""
  {
  }

  /** ASCII part of Python's `str.lower()`. */
  function LowerChar(c: char): (d: char)
    ensures 'A' <= c <= 'Z' ==> 'a' <= d <= 'z'
    ensures !('A' <= c <= 'Z') ==> d == c
  {
    if 'A' <= c <= 'Z' then (c as int - 'A' as int + 'a' as int) as char else c
  }

  function Lower(s: string): (r: string)
    ensures |r| == |s|
    ensures forall i :: 0 <= i < |s| ==> r[i] == LowerChar(s[i])
  {
    seq(|s|, i requires 0 <= i < |s| => LowerChar(s[i]))
  }

  /** Python's `sep.join(parts)`: the parts in order with `sep` between neighbours. */
  function Join(sep: string, parts: seq<string>): string
  {
    if |parts| == 0 then ""
    else if |parts| == 1 then parts[0]
    else Join(sep, parts[..|parts| - 1]) + sep + parts[|parts| - 1]
  }

  /** Concatenation of a list of strings (`"".join(parts)`). */
  function Concat(parts: seq<string>): string
  {
    if parts == [] then "" else Concat(parts[..|parts| - 1]) + parts[|parts| - 1]
  }

  lemma AppendAssociative<T>(x: seq<T>, y: seq<T>, z: seq<T>)
    ensures (x + y) + z == x + (y + z)
  {
  }

  /** Slicing from the start and appending to nothing leave a sequence as it is. */
  lemma FromStart<T>(t: seq<T>)
    ensures t[0..] == t && [] + t == t
  {
  }

  /** A slice of a slice is a slice of the whole. */
  lemma SliceOfSlice<T>(t: seq<T>, p: nat, e: nat, a: nat, b: nat)
    requires p <= e <= |t| && a <= b <= e - p
    ensures t[p..e][a..b] == t[p + a..p + b]
  {
    var u, v := t[p..e][a..b], t[p + a..p + b];
    assert |u| == |v|;
    forall i | 0 <= i < |u| ensures u[i] == v[i] {
      assert u[i] == t[p..e][a + i] == t[p + a + i];
    }
  }

  /** A sequence is its first `n` elements, the rest but the last, and the last. */
  lemma SplitLast<T>(t: seq<T>, n: nat)
    requires n < |t|
    ensures t == t[..n] + t[n..|t| - 1] + [t[|t| - 1]]
  {
  }

  lemma {:induction false} ConcatAppend(a: seq<string>, b: seq<string>)
    ensures Concat(a + b) == Concat(a) + Concat(b)
  {
    if b == [] {
      assert a + b == a;
    } else {
      var init, last := b[..|b| - 1], b[|b| - 1];
      assert (a + b)[..|a + b| - 1] == a + init;
      assert (a + b)[|a + b| - 1] == last;
      ConcatAppend(a, init);
      AppendAssociative(Concat(a), Concat(init), last);
    }
  }

  /** A join of `n` parts is as long as the parts together plus `n - 1` separators. */
  lemma {:induction false} JoinLength(sep: string, parts: seq<string>)
    requires parts != []
    ensures |Join(sep, parts)| == |Concat(parts)| + |sep| * (|parts| - 1)
  {
    if |parts| == 1 {
      assert parts[..0] == [];
    } else {
      var init := parts[..|parts| - 1];
      JoinLength(sep, init);
      assert |sep| * (|parts| - 1) == |sep| * (|init| - 1) + |sep|;
    }
  }

  /** A join of two or more parts is the first part, the separator, and the join of the rest. */
  lemma {:induction false} JoinFront(sep: string, parts: seq<string>)
    requires |parts| >= 2
    ensures Join(sep, parts) == parts[0] + sep + Join(sep, parts[1..])
  {
    var init, last := parts[..|parts| - 1], parts[|parts| - 1];
    var rest := parts[1..];
    if |parts| == 2 {
      assert init == [parts[0]] && rest == [last];
    } else {
      JoinFront(sep, init);
      assert rest[..|rest| - 1] == init[1..] && rest[|rest| - 1] == last;
      AppendAssociative(parts[0] + sep, Join(sep, init[1..]), sep);
      AppendAssociative(parts[0] + sep, Join(sep, init[1..]) + sep, last);
    }
  }

  /** Python's slice `s[a:b]` for non-negative bounds: out-of-range bounds are clamped. */
  function Slice(s: string, a: nat, b: nat): (r: string)
    ensures a <= b <= |s| ==> r == s[a..b]
    ensures b <= a ==> r == ""
    ensures |r| <= |s|
  {
    var lo := if a <= |s| then a else |s|;
    var hi := if b <= |s| then b else |s|;
    if lo <= hi then s[lo..hi] else ""
  }

  /** The characters of `s` are all different from `c`. */
  predicate Lacks(s: string, c: char) {
    forall i :: 0 <= i < |s| ==> s[i] != c
  }

  /** The first position at or after `i` that holds `c`, or `|s|` when there is none (`str.find`). */
  function IndexOf(s: string, c: char, i: nat): (k: nat)
    requires i <= |s|
    decreases |s| - i
    ensures i <= k <= |s|
    ensures forall j :: i <= j < k ==> s[j] != c
    ensures k < |s| ==> s[k] == c
  {
    if i == |s| || s[i] == c then i else IndexOf(s, c, i + 1)
  }

  /** `IndexOf` finds the first occurrence: a `c` at `m` with none before it from `i`. */
  lemma {:induction false} IndexOfFirst(s: string, c: char, i: nat, m: nat)
    requires i <= m < |s| && s[m] == c
    requires forall x :: i <= x < m ==> s[x] != c
    decreases m - i
    ensures IndexOf(s, c, i) == m
  {
    if i < m {
      IndexOfFirst(s, c, i + 1, m);
    }
  }

  /**
   * The preview rule `s[:n] + "..." if len(s) > n else s`: a string no longer
   * than `n` is kept whole, a longer one keeps its first `n` characters and
   * gains an ellipsis.
   */
  function Preview(s: string, n: nat): (r: string)
    ensures |r| <= n + 3
    ensures |s| <= n ==> r == s
    ensures |s| > n ==> |r| == n + 3 && r[..n] == s[..n] && r[n..] == "..."
  {
    if |s| > n then s[..n] + "..." else s
  }
}
