/**
 * The Korean text normaliser `preprocess_korean_text`: strip, collapse every
 * whitespace run to one space, turn every character that is neither a word
 * character, whitespace nor a Hangul syllable into a space, and collapse again.
 */
module Normalize {
  import opened Strings

  /**
   * The regex class `\w`: letters, digits and `_`. Python's Unicode class is
   * approximated by ASCII, Latin-1 letters, Hangul (syllables and jamo) and the
   * CJK unified ideographs.
   */
  predicate IsWordChar(c: char) {
    || ('a' <= c <= 'z') || ('A' <= c <= 'Z') || ('0' <= c <= '9') || c == '_'
    || c == '\U{AA}' || c == '\U{B5}' || c == '\U{BA}'
    || ('\U{C0}' <= c <= '\U{FF}' && c != '\U{D7}' && c != '\U{F7}')
    || ('\U{1100}' <= c <= '\U{11FF}') || ('\U{3131}' <= c <= '\U{318E}')
    || ('\U{4E00}' <= c <= '\U{9FFF}') || ('가' <= c <= '힣')
  }

  /** The characters the pattern `[^\w\s가-힣]` does not match, and so keeps. */
  predicate IsKept(c: char) {
    IsWordChar(c) || IsWhitespace(c) || ('가' <= c <= '힣')
  }

  /** No two neighbouring characters are both whitespace. */
  predicate NoDoubleSpace(s: string) {
    forall i :: 0 <= i < |s| - 1 ==> !(IsWhitespace(s[i]) && IsWhitespace(s[i + 1]))
  }

  /** The word characters of `s`, in order: what normalisation must never lose. */
  function Words(s: string): string
  {
    if s == [] then "" else (if IsWordChar(s[0]) then [s[0]] else []) + Words(s[1..])
  }

  lemma {:induction false} WordsSkip(s: string, n: nat)
    requires n <= |s|
    requires forall i :: 0 <= i < n ==> !IsWordChar(s[i])
    ensures Words(s) == Words(s[n..])
  {
    if n > 0 {
      assert s[1..][n - 1..] == s[n..];
      WordsSkip(s[1..], n - 1);
    }
  }

  lemma {:induction false} WordsPrefix(s: string, n: nat)
    requires n <= |s|
    requires forall i :: n <= i < |s| ==> !IsWordChar(s[i])
    ensures Words(s) == Words(s[..n])
  {
    if n == 0 {
      WordsSkip(s, |s|);
    } else {
      assert s[1..][..n - 1] == s[..n][1..];
      WordsPrefix(s[1..], n - 1);
    }
  }

  /** Stripping removes whitespace only, so it keeps every word character. */
  lemma StripKeepsWords(s: string)
    ensures Words(Strip(s)) == Words(s)
  {
    var k := LeadCount(s);
    var r := Strip(s);
    StripRemovesWhitespace(s);
    WordsSkip(s, k);
    assert r == s[k..][..|r|];
    WordsPrefix(s[k..], |r|);
  }

  /**
   * `re.sub(r'\s+', ' ', s)`: each maximal whitespace run becomes one space and
   * everything else is kept in order.
   */
  function Collapse(s: string): (r: string)
    decreases |s|
    ensures |r| <= |s|
    ensures s == [] <==> r == []
    ensures r != [] ==> (IsWhitespace(r[0]) <==> IsWhitespace(s[0]))
  {
    if s == [] then []
    else if IsWhitespace(s[0]) then [' '] + Collapse(s[LeadCount(s)..])
    else [s[0]] + Collapse(s[1..])
  }

  /** Collapsing leaves no two whitespace characters side by side. */
  lemma {:induction false} CollapseNoDoubleSpace(s: string)
    decreases |s|
    ensures NoDoubleSpace(Collapse(s))
  {
    if s != [] {
      var white := IsWhitespace(s[0]);
      var rest := if white then s[LeadCount(s)..] else s[1..];
      CollapseNoDoubleSpace(rest);
      var r, t := Collapse(s), Collapse(rest);
      assert r == [if white then ' ' else s[0]] + t;
      if white && t != [] {
        assert rest[0] == s[LeadCount(s)] && !IsWhitespace(rest[0]);
        assert !IsWhitespace(t[0]);
      }
      forall i | 0 <= i < |r| - 1 ensures !(IsWhitespace(r[i]) && IsWhitespace(r[i + 1])) {
        if i > 0 {
          assert r[i] == t[i - 1] && r[i + 1] == t[i];
        } else {
          assert r[1] == t[0];
        }
      }
    }
  }

  /** The whitespace left is plain spaces; every other character comes from the input. */
  lemma {:induction false} CollapseChars(s: string)
    decreases |s|
    ensures forall i :: 0 <= i < |Collapse(s)| ==>
      Collapse(s)[i] == ' ' || (!IsWhitespace(Collapse(s)[i]) && Collapse(s)[i] in s)
  {
    if s != [] {
      var rest := if IsWhitespace(s[0]) then s[LeadCount(s)..] else s[1..];
      CollapseChars(rest);
      var r, t := Collapse(s), Collapse(rest);
      assert r == [if IsWhitespace(s[0]) then ' ' else s[0]] + t;
      forall i | 0 < i < |r| ensures r[i] == ' ' || (!IsWhitespace(r[i]) && r[i] in s) {
        assert r[i] == t[i - 1];
        assert t[i - 1] in rest ==> t[i - 1] in s;
      }
    }
  }

  /** Collapsing keeps the word characters of the input, in order. */
  lemma {:induction false} CollapseKeepsWords(s: string)
    decreases |s|
    ensures Words(Collapse(s)) == Words(s)
  {
    if s == [] {
    } else if IsWhitespace(s[0]) {
      var rest := s[LeadCount(s)..];
      CollapseKeepsWords(rest);
      WordsSkip(s, LeadCount(s));
      assert Collapse(s) == [' '] + Collapse(rest);
      assert ([' '] + Collapse(rest))[1..] == Collapse(rest);
    } else {
      CollapseKeepsWords(s[1..]);
      assert Collapse(s) == [s[0]] + Collapse(s[1..]);
      assert ([s[0]] + Collapse(s[1..]))[1..] == Collapse(s[1..]);
    }
  }

  /** `re.sub(r'[^\w\s가-힣]', ' ', s)`: one space for each character not kept. */
  function ReplaceSymbols(s: string): (r: string)
    ensures |r| == |s|
    ensures forall i :: 0 <= i < |s| ==> IsKept(r[i])
    ensures forall i :: 0 <= i < |s| && IsKept(s[i]) ==> r[i] == s[i]
    ensures forall i :: 0 <= i < |s| && !IsKept(s[i]) ==> r[i] == ' '
  {
    seq(|s|, i requires 0 <= i < |s| => if IsKept(s[i]) then s[i] else ' ')
  }

  lemma {:induction false} ReplaceKeepsWords(s: string)
    ensures Words(ReplaceSymbols(s)) == Words(s)
  {
    if s != [] {
      assert ReplaceSymbols(s)[1..] == ReplaceSymbols(s[1..]);
      ReplaceKeepsWords(s[1..]);
    }
  }

  /** `preprocess_korean_text` (step2.py:20-28). */
  function Preprocess(text: string): string
  {
    Collapse(ReplaceSymbols(Collapse(Strip(text))))
  }

  /**
   * What the normaliser promises: no whitespace run survives, every character
   * left is a word character or a plain space, nothing lengthens, and every
   * word character of the input survives in its order.
   */
  lemma PreprocessSpec(text: string)
    ensures var r := Preprocess(text);
      && NoDoubleSpace(r)
      && (forall i :: 0 <= i < |r| ==> IsWordChar(r[i]) || r[i] == ' ')
      && |r| <= |text|
      && Words(r) == Words(text)
      && (text == "" ==> r == "")
  {
    var a := Collapse(Strip(text));
    CollapseChars(Strip(text));
    CollapseKeepsWords(Strip(text));
    var b := ReplaceSymbols(a);
    forall i | 0 <= i < |b| && IsWhitespace(b[i]) ensures b[i] == ' ' {
      if !IsKept(a[i]) {
      } else {
        assert b[i] == a[i];
        assert IsWhitespace(a[i]);
      }
    }
    var r := Collapse(b);
    CollapseChars(b);
    CollapseKeepsWords(b);
    CollapseNoDoubleSpace(b);
    forall i | 0 <= i < |r| ensures IsWordChar(r[i]) || r[i] == ' ' {
      if r[i] != ' ' {
        var j :| 0 <= j < |b| && b[j] == r[i];
        assert IsKept(b[j]);
      }
    }
    StripKeepsWords(text);
    ReplaceKeepsWords(a);
  }

  /**
   * The normaliser is not idempotent: a symbol at an end becomes a space that
   * the final collapse keeps and a second pass strips.
   */
  lemma PreprocessNotIdempotent()
    ensures Preprocess("a!") == "a "
    ensures Preprocess(Preprocess("a!")) == "a"
  {
    PreprocessSymbolAtEnd();
    PreprocessSpaceAtEnd();
  }

  lemma PreprocessSymbolAtEnd()
    ensures Preprocess("a!") == "a "
  {
    StripSymbolEnd();
    CollapseSymbolEnd();
    ReplaceSymbolEnd();
    CollapseSpaceEnd();
  }

  lemma StripSymbolEnd()
    ensures Strip("a!") == "a!"
  {
    assert LeadCount("a!") == 0;
    assert TrailCount("a!") == 0;
  }

  lemma CollapseSymbolEnd()
    ensures Collapse("a!") == "a!"
  {
    assert Collapse("!") == "!";
  }

  lemma ReplaceSymbolEnd()
    ensures ReplaceSymbols("a!") == "a "
  {
    assert IsKept('a') && !IsKept('!');
  }

  lemma CollapseSpaceEnd()
    ensures Collapse("a ") == "a "
  {
    assert LeadCount(" ") == 1;
    assert Collapse(" ") == " ";
  }

  lemma PreprocessSpaceAtEnd()
    ensures Preprocess("a ") == "a"
  {
    StripSpaceEnd();
    assert Collapse("a") == "a";
    assert ReplaceSymbols("a") == "a";
  }

  lemma StripSpaceEnd()
    ensures Strip("a ") == "a"
  {
    assert LeadCount("a ") == 0;
    assert TrailCount("a ") == 1;
  }
}
