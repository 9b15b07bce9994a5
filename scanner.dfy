/**
 * The three regular expressions the sequence builders scan markdown with,
 * written out as scanners: the image reference `!\[([^\]]*)\]\(([^)]+)\)`,
 * the caption `\[이미지 캡션: ([^\]]+)\]` and the literal `<!-- image -->`.
 * `FindAll` is `re.finditer`: leftmost matches, scanning on from the end of
 * each match.
 */
module Scanner {
  import opened Wrappers
  import opened Strings

  datatype Pattern = ImageRef | Caption | Placeholder

  /** The span `[start, end)` of one match. */
  datatype Span = Span(start: nat, end: nat)

  /** The text that opens a caption. */
  const CaptionOpen: string := "[이미지 캡션: "

  /** The docling image placeholder. */
  const PlaceholderText: string := "<!-- image -->"

  /**
   * `t` is `"![" + alt + "](" + path + ")"` with `]` at index `j`, no `]` in
   * `alt` and a non-empty `path` without `)`.
   */
  predicate ImageRefSplit(t: string, j: nat) {
    && 2 <= j && j + 3 < |t|
    && t[0] == '!' && t[1] == '['
    && Lacks(t[2..j], ']') && t[j] == ']' && t[j + 1] == '('
    && Lacks(t[j + 2..|t| - 1], ')') && t[|t| - 1] == ')'
  }

  /** `t` is a whole match of the image reference pattern. */
  predicate IsImageRef(t: string) {
    exists j :: 0 <= j < |t| && ImageRefSplit(t, j)
  }

  /** `t` is a whole match of the caption pattern: the opener, a non-empty body without `]`, then `]`. */
  predicate IsCaption(t: string) {
    && |t| > |CaptionOpen| + 1
    && t[..|CaptionOpen|] == CaptionOpen
    && Lacks(t[|CaptionOpen|..|t| - 1], ']') && t[|t| - 1] == ']'
  }

  /** `t` is a whole match of `pat`. */
  predicate Matches(pat: Pattern, t: string) {
    match pat
    case ImageRef => IsImageRef(t)
    case Caption => IsCaption(t)
    case Placeholder => t == PlaceholderText
  }

  /** Try the image reference pattern at `p`: the end of the match, if one starts there. */
  function ImageRefAt(s: string, p: nat): (r: Option<nat>)
    ensures r.Some? ==> p < r.value <= |s|
  {
    if p + 1 < |s| && s[p] == '!' && s[p + 1] == '[' then
      var j := IndexOf(s, ']', p + 2);
      if j + 1 < |s| && s[j + 1] == '(' then
        var k := IndexOf(s, ')', j + 2);
        if j + 2 < k < |s| then Some(k + 1) else None
      else None
    else None
  }

  /** Try the caption pattern at `p`. */
  function CaptionAt(s: string, p: nat): (r: Option<nat>)
    ensures r.Some? ==> p < r.value <= |s|
  {
    var n := |CaptionOpen|;
    if p + n < |s| && s[p..p + n] == CaptionOpen then
      var k := IndexOf(s, ']', p + n);
      if p + n < k < |s| then Some(k + 1) else None
    else None
  }

  /** Try the placeholder literal at `p`. */
  function PlaceholderAt(s: string, p: nat): (r: Option<nat>)
    ensures r.Some? ==> p < r.value <= |s|
  {
    var n := |PlaceholderText|;
    if p + n <= |s| && s[p..p + n] == PlaceholderText then Some(p + n) else None
  }

  /** Try `pat` at position `p` of `s`: the end of the match that starts there, if any. */
  function MatchAt(pat: Pattern, s: string, p: nat): (r: Option<nat>)
    ensures r.Some? ==> p < r.value <= |s|
  {
    match pat
    case ImageRef => ImageRefAt(s, p)
    case Caption => CaptionAt(s, p)
    case Placeholder => PlaceholderAt(s, p)
  }

  /** `re.finditer(pat, s)` from position `from`. */
  function FindAll(pat: Pattern, s: string, from: nat): (r: seq<Span>)
    decreases |s| - from
  {
    if from >= |s| then []
    else match MatchAt(pat, s, from)
      case Some(e) => [Span(from, e)] + FindAll(pat, s, e)
      case None => FindAll(pat, s, from + 1)
  }

  /** The image reference matcher finds a match exactly when one starts at `p`, and it is the only one. */
  lemma ImageRefAtSpec(s: string, p: nat)
    ensures ImageRefAt(s, p).Some? ==> IsImageRef(s[p..ImageRefAt(s, p).value])
    ensures forall e :: p < e <= |s| && IsImageRef(s[p..e]) ==> ImageRefAt(s, p) == Some(e)
  {
    var r := ImageRefAt(s, p);
    if r.Some? {
      var j := IndexOf(s, ']', p + 2);
      var t := s[p..r.value];
      SliceOfSlice(s, p, r.value, 2, j - p);
      SliceOfSlice(s, p, r.value, j - p + 2, |t| - 1);
      assert ImageRefSplit(t, j - p);
    }
    forall e | p < e <= |s| && IsImageRef(s[p..e]) ensures r == Some(e) {
      var t := s[p..e];
      var jt :| ImageRefSplit(t, jt);
      ImageRefForced(s, p, e, jt);
    }
  }

  /** An image reference spanning `[p, e)` has its `]` and `)` at the first such characters. */
  lemma ImageRefForced(s: string, p: nat, e: nat, jt: nat)
    requires p < e <= |s| && ImageRefSplit(s[p..e], jt)
    ensures ImageRefAt(s, p) == Some(e)
  {
    var t := s[p..e];
    SliceOfSlice(s, p, e, 2, jt);
    SliceOfSlice(s, p, e, jt + 2, |t| - 1);
    LacksSlice(s, p + 2, p + jt, ']');
    IndexOfFirst(s, ']', p + 2, p + jt);
    LacksSlice(s, p + jt + 2, e - 1, ')');
    IndexOfFirst(s, ')', p + jt + 2, e - 1);
  }

  /** The caption matcher finds a match exactly when one starts at `p`, and it is the only one. */
  lemma CaptionAtSpec(s: string, p: nat)
    ensures CaptionAt(s, p).Some? ==> IsCaption(s[p..CaptionAt(s, p).value])
    ensures forall e :: p < e <= |s| && IsCaption(s[p..e]) ==> CaptionAt(s, p) == Some(e)
  {
    CaptionAtSound(s, p);
    CaptionAtComplete(s, p);
  }

  lemma CaptionAtSound(s: string, p: nat)
    ensures CaptionAt(s, p).Some? ==> IsCaption(s[p..CaptionAt(s, p).value])
  {
    var n := |CaptionOpen|;
    var r := CaptionAt(s, p);
    if r.Some? {
      var t := s[p..r.value];
      SliceOfSlice(s, p, r.value, 0, n);
      SliceOfSlice(s, p, r.value, n, |t| - 1);
      assert t[..n] == t[0..n];
    }
  }

  lemma CaptionAtComplete(s: string, p: nat)
    ensures forall e :: p < e <= |s| && IsCaption(s[p..e]) ==> CaptionAt(s, p) == Some(e)
  {
    forall e | p < e <= |s| && IsCaption(s[p..e]) ensures CaptionAt(s, p) == Some(e) {
      CaptionForced(s, p, e);
    }
  }

  /** A caption spanning `[p, e)` closes at the first `]` after its opener. */
  lemma CaptionForced(s: string, p: nat, e: nat)
    requires p < e <= |s| && IsCaption(s[p..e])
    ensures CaptionAt(s, p) == Some(e)
  {
    var n := |CaptionOpen|;
    var t := s[p..e];
    SliceOfSlice(s, p, e, 0, n);
    SliceOfSlice(s, p, e, n, |t| - 1);
    LacksSlice(s, p + n, e - 1, ']');
    IndexOfFirst(s, ']', p + n, e - 1);
  }

  /** The placeholder matcher finds a match exactly when the literal starts at `p`. */
  lemma PlaceholderAtSpec(s: string, p: nat)
    ensures PlaceholderAt(s, p).Some? ==> s[p..PlaceholderAt(s, p).value] == PlaceholderText
    ensures forall e :: p < e <= |s| && s[p..e] == PlaceholderText ==> PlaceholderAt(s, p) == Some(e)
  {
  }

  /**
   * `MatchAt` is a faithful matcher: what it returns is a match, no other
   * match starts at `p`, and it returns nothing only when no match starts there.
   */
  lemma MatchAtSpec(pat: Pattern, s: string, p: nat)
    ensures MatchAt(pat, s, p).Some? ==> Matches(pat, s[p..MatchAt(pat, s, p).value])
    ensures forall e :: p < e <= |s| && Matches(pat, s[p..e]) ==> MatchAt(pat, s, p) == Some(e)
  {
    match pat
    case ImageRef => ImageRefAtSpec(s, p);
    case Caption => CaptionAtSpec(s, p);
    case Placeholder => PlaceholderAtSpec(s, p);
  }

  /** Every span lies in `[from, |s|)` and is a match of `pat`. */
  predicate SpansMatch(pat: Pattern, s: string, from: nat, r: seq<Span>) {
    forall k :: 0 <= k < |r| ==>
      from <= r[k].start < r[k].end <= |s| && MatchAt(pat, s, r[k].start) == Some(r[k].end)
  }

  /** Each span ends at or before the next one starts. */
  predicate Disjoint(r: seq<Span>) {
    forall k :: 0 <= k < |r| - 1 ==> r[k].end <= r[k + 1].start
  }

  /** No match of `pat` starts in `[lo, hi)`. */
  predicate NoMatchIn(pat: Pattern, s: string, lo: nat, hi: int) {
    forall q :: lo <= q < hi ==> MatchAt(pat, s, q).None?
  }

  /** Where the scan resumes after the k-th span: `from` before the first. */
  function Resume(r: seq<Span>, from: nat, k: nat): nat
    requires k <= |r|
  {
    if k == 0 then from else r[k - 1].end
  }

  /** No match is missed: none starts before a span and after the previous one, or after the last. */
  predicate NoneMissed(pat: Pattern, s: string, from: nat, r: seq<Span>) {
    && (forall k :: 0 <= k < |r| ==> NoMatchIn(pat, s, Resume(r, from, k), r[k].start))
    && NoMatchIn(pat, s, Resume(r, from, |r|), |s|)
  }

  /** The spans `finditer` reports are matches inside the scanned range. */
  lemma {:induction false} FindAllMatch(pat: Pattern, s: string, from: nat)
    decreases |s| - from
    ensures SpansMatch(pat, s, from, FindAll(pat, s, from))
  {
    if from < |s| {
      match MatchAt(pat, s, from)
      case Some(e) =>
        FindAllMatch(pat, s, e);
      case None =>
        FindAllMatch(pat, s, from + 1);
    }
  }

  /** The spans `finditer` reports come in order and do not overlap. */
  lemma {:induction false} FindAllDisjoint(pat: Pattern, s: string, from: nat)
    decreases |s| - from
    ensures Disjoint(FindAll(pat, s, from))
  {
    if from < |s| {
      match MatchAt(pat, s, from)
      case Some(e) =>
        FindAllDisjoint(pat, s, e);
        FindAllMatch(pat, s, e);
        var rest := FindAll(pat, s, e);
        DisjointCons(Span(from, e), rest);
      case None =>
        FindAllDisjoint(pat, s, from + 1);
    }
  }

  lemma DisjointCons(sp: Span, rest: seq<Span>)
    requires Disjoint(rest)
    requires rest != [] ==> sp.end <= rest[0].start
    ensures Disjoint([sp] + rest)
  {
    var r := [sp] + rest;
    forall k | 0 <= k < |r| - 1 ensures r[k].end <= r[k + 1].start {
      if k > 0 {
        assert r[k] == rest[k - 1] && r[k + 1] == rest[k];
      }
    }
  }

  /** A slice of `s` that lacks `c` means no `c` in that range of `s`. */
  lemma LacksSlice(s: string, lo: nat, hi: nat, c: char)
    requires lo <= hi <= |s| && Lacks(s[lo..hi], c)
    ensures forall x :: lo <= x < hi ==> s[x] != c
  {
    forall x | lo <= x < hi ensures s[x] != c {
      assert s[x] == s[lo..hi][x - lo];
    }
  }

  /** `finditer` misses no match that starts outside the reported spans. */
  lemma {:induction false} FindAllComplete(pat: Pattern, s: string, from: nat)
    decreases |s| - from
    ensures NoneMissed(pat, s, from, FindAll(pat, s, from))
  {
    if from < |s| {
      match MatchAt(pat, s, from)
      case Some(e) =>
        FindAllComplete(pat, s, e);
        NoneMissedCons(pat, s, from, e, FindAll(pat, s, e));
      case None =>
        FindAllComplete(pat, s, from + 1);
        NoneMissedSkip(pat, s, from, FindAll(pat, s, from + 1));
    }
  }

  /** A position where no match starts can be added in front of the scanned range. */
  lemma NoneMissedSkip(pat: Pattern, s: string, from: nat, r: seq<Span>)
    requires MatchAt(pat, s, from).None?
    requires NoneMissed(pat, s, from + 1, r)
    ensures NoneMissed(pat, s, from, r)
  {
    var hi := if r == [] then |s| else r[0].start;
    assert NoMatchIn(pat, s, from + 1, hi);
    assert NoMatchIn(pat, s, from, hi) by {
      forall q | from <= q < hi ensures MatchAt(pat, s, q).None? {
        if q > from {
          assert from + 1 <= q < hi;
        }
      }
    }
    forall k | 0 < k <= |r| ensures Resume(r, from, k) == Resume(r, from + 1, k) {
    }
  }

  /** A match at `from` ending at `e` can be put in front of the spans found from `e`. */
  lemma NoneMissedCons(pat: Pattern, s: string, from: nat, e: nat, rest: seq<Span>)
    requires NoneMissed(pat, s, e, rest)
    ensures NoneMissed(pat, s, from, [Span(from, e)] + rest)
  {
    var r := [Span(from, e)] + rest;
    forall k | 0 < k <= |r| ensures Resume(r, from, k) == Resume(rest, e, k - 1) {
      if k > 1 {
        assert r[k - 1] == rest[k - 2];
      }
    }
    forall k | 0 <= k < |r| ensures NoMatchIn(pat, s, Resume(r, from, k), r[k].start) {
      if k > 0 {
        assert r[k] == rest[k - 1];
        assert NoMatchIn(pat, s, Resume(rest, e, k - 1), rest[k - 1].start);
      }
    }
    assert NoMatchIn(pat, s, Resume(rest, e, |rest|), |s|);
  }

  /** `finditer` reports nothing exactly when no match starts anywhere at or after `from`. */
  lemma FindAllEmpty(pat: Pattern, s: string, from: nat)
    ensures FindAll(pat, s, from) == [] <==> NoMatchIn(pat, s, from, |s|)
  {
    FindAllMatch(pat, s, from);
    FindAllComplete(pat, s, from);
    var r := FindAll(pat, s, from);
    if r != [] {
      assert MatchAt(pat, s, r[0].start).Some?;
    }
  }

  /** The group text of a caption match: what lies between the opener and the closing `]`. */
  function CaptionBody(s: string, sp: Span): string
  {
    Slice(s, sp.start + |CaptionOpen|, if sp.end > 0 then sp.end - 1 else 0)
  }

  /**
   * `re.findall(r'\[이미지 캡션: ([^\]]+)\]', s)`: the text of the group of each
   * caption match, in order.
   */
  function CaptionTexts(s: string): (r: seq<string>)
    ensures |r| == |FindAll(Caption, s, 0)|
  {
    var spans := FindAll(Caption, s, 0);
    seq(|spans|, k requires 0 <= k < |spans| => CaptionBody(s, spans[k]))
  }

  /** Each caption text is the non-empty body, without `]`, of the caption matched at that place. */
  lemma CaptionTextsSpec(s: string)
    ensures var spans := FindAll(Caption, s, 0);
      forall k :: 0 <= k < |spans| ==>
        && spans[k].start < spans[k].end <= |s|
        && s[spans[k].start..spans[k].end] == CaptionOpen + CaptionTexts(s)[k] + "]"
        && CaptionTexts(s)[k] != "" && Lacks(CaptionTexts(s)[k], ']')
  {
    var spans := FindAll(Caption, s, 0);
    FindAllMatch(Caption, s, 0);
    forall k | 0 <= k < |spans|
      ensures && spans[k].start < spans[k].end <= |s|
              && s[spans[k].start..spans[k].end] == CaptionOpen + CaptionTexts(s)[k] + "]"
              && CaptionTexts(s)[k] != "" && Lacks(CaptionTexts(s)[k], ']')
    {
      CaptionMatchBody(s, spans[k]);
    }
  }

  lemma CaptionMatchBody(s: string, sp: Span)
    requires sp.start < sp.end <= |s| && CaptionAt(s, sp.start) == Some(sp.end)
    ensures s[sp.start..sp.end] == CaptionOpen + CaptionBody(s, sp) + "]"
    ensures CaptionBody(s, sp) != "" && Lacks(CaptionBody(s, sp), ']')
  {
    var n := |CaptionOpen|;
    CaptionAtSpec(s, sp.start);
    var t := s[sp.start..sp.end];
    SliceOfSlice(s, sp.start, sp.end, n, |t| - 1);
    assert CaptionBody(s, sp) == t[n..|t| - 1];
    SplitLast(t, n);
  }
}
