/**
 * The chunker `chunk_text`: a text no longer than the bound is one chunk;
 * a longer one is split at sentence terminators and the stripped, non-empty
 * sentences are packed greedily, each followed by ". ", into buffers that are
 * stripped when flushed. With no sentence at all the whole text is the chunk.
 */
module Chunking {
  import opened Strings

  /** The class `[.!?。！？]` that `re.split` cuts at. */
  predicate IsTerminator(c: char) {
    c == '.' || c == '!' || c == '?' || c == '。' || c == '！' || c == '？'
  }

  predicate NoTerminator(s: string) {
    forall i :: 0 <= i < |s| ==> !IsTerminator(s[i])
  }

  function TerminatorCount(s: string): nat
  {
    if s == [] then 0 else TerminatorCount(s[..|s| - 1]) + (if IsTerminator(s[|s| - 1]) then 1 else 0)
  }

  /** The text with every terminator removed. */
  function WithoutTerminators(s: string): string
  {
    if s == [] then "" else WithoutTerminators(s[..|s| - 1]) + (if IsTerminator(s[|s| - 1]) then "" else [s[|s| - 1]])
  }

  /** `re.split(r'[.!?。！？]', text)`: the pieces between terminators. */
  function SplitSentences(text: string): (pieces: seq<string>)
    ensures |pieces| >= 1
  {
    if text == [] then [""]
    else
      var pre := SplitSentences(text[..|text| - 1]);
      var c := text[|text| - 1];
      if IsTerminator(c) then pre + [""]
      else pre[..|pre| - 1] + [pre[|pre| - 1] + [c]]
  }

  /**
   * The split keeps everything but the terminators: there is one piece more
   * than there are terminators, no piece holds one, and the pieces together
   * spell the text without its terminators.
   */
  lemma SplitSentencesSpec(text: string)
    ensures var pieces := SplitSentences(text);
      && |pieces| == TerminatorCount(text) + 1
      && (forall k :: 0 <= k < |pieces| ==> NoTerminator(pieces[k]))
      && Concat(pieces) == WithoutTerminators(text)
  {
    SplitCount(text);
    SplitNoTerminator(text);
    SplitConcat(text);
  }

  lemma {:induction false} SplitCount(text: string)
    ensures |SplitSentences(text)| == TerminatorCount(text) + 1
  {
    if text != [] {
      SplitCount(text[..|text| - 1]);
    }
  }

  lemma {:induction false} SplitNoTerminator(text: string)
    ensures forall k :: 0 <= k < |SplitSentences(text)| ==> NoTerminator(SplitSentences(text)[k])
  {
    if text != [] {
      var init := text[..|text| - 1];
      SplitNoTerminator(init);
      var pre := SplitSentences(init);
      var c := text[|text| - 1];
      var pieces := SplitSentences(text);
      if IsTerminator(c) {
        assert pieces == pre + [""];
        assert forall k :: 0 <= k < |pre| ==> pieces[k] == pre[k];
      } else {
        var last := pre[|pre| - 1] + [c];
        assert pieces == pre[..|pre| - 1] + [last];
        assert NoTerminator(last) by {
          assert forall i :: 0 <= i < |last| - 1 ==> last[i] == pre[|pre| - 1][i];
        }
        assert forall k :: 0 <= k < |pieces| - 1 ==> pieces[k] == pre[k];
      }
    }
  }

  lemma {:induction false} SplitConcat(text: string)
    ensures Concat(SplitSentences(text)) == WithoutTerminators(text)
  {
    if text != [] {
      var init := text[..|text| - 1];
      SplitConcat(init);
      var pre := SplitSentences(init);
      var c := text[|text| - 1];
      var pieces := SplitSentences(text);
      if IsTerminator(c) {
        assert pieces == pre + [""];
        ConcatAppend(pre, [""]);
        assert Concat([""]) == "" by {
          assert [""][..0] == [];
        }
      } else {
        var front := pre[..|pre| - 1];
        var last := pre[|pre| - 1] + [c];
        assert pieces == front + [last];
        assert pre == front + [pre[|pre| - 1]];
        ConcatAppend(front, [pre[|pre| - 1]]);
        ConcatAppend(front, [last]);
        assert Concat([pre[|pre| - 1]]) == pre[|pre| - 1] by {
          assert [pre[|pre| - 1]][..0] == [];
        }
        assert Concat([last]) == last by {
          assert [last][..0] == [];
        }
      }
    }
  }

  /** The sentences the loop keeps: the pieces that are non-empty once stripped. */
  function Sentences(pieces: seq<string>): seq<string>
  {
    if pieces == [] then []
    else if Strip(pieces[0]) == "" then Sentences(pieces[1..])
    else [Strip(pieces[0])] + Sentences(pieces[1..])
  }

  /** The kept sentences, each followed by ". ", end to end. */
  function Dotted(sentences: seq<string>): string
  {
    if sentences == [] then "" else sentences[0] + ". " + Dotted(sentences[1..])
  }

  /** The chunks, each followed by one space, end to end. */
  function Spaced(chunks: seq<string>): string
  {
    if chunks == [] then "" else chunks[0] + " " + Spaced(chunks[1..])
  }

  lemma {:induction false} SpacedAppend(a: seq<string>, b: seq<string>)
    ensures Spaced(a + b) == Spaced(a) + Spaced(b)
  {
    if a == [] {
      assert a + b == b;
    } else {
      assert (a + b)[1..] == a[1..] + b;
      SpacedAppend(a[1..], b);
    }
  }

  /** A chunk made of one sentence: its only terminator is its final period. */
  predicate SingleSentence(c: string) {
    |c| >= 1 && c[|c| - 1] == '.' && NoTerminator(c[..|c| - 1])
  }

  /**
   * The buffer `current_chunk` between sentences: empty, or sentences each
   * followed by ". " (so it opens with a non-space and ends in ". "); when
   * it is longer than the bound allows a flushed chunk to be, it holds one
   * sentence only.
   */
  predicate Buffer(cur: string, maxLength: int) {
    cur == "" ||
    (&& |cur| >= 2 && !IsWhitespace(cur[0]) && cur[|cur| - 2] == '.' && cur[|cur| - 1] == ' '
     && (|cur| <= maxLength + 1 || NoTerminator(cur[..|cur| - 2])))
  }

  /** `if current_chunk: chunks.append(current_chunk.strip())`. */
  function Flush(cur: string): seq<string>
  {
    if cur != "" then [Strip(cur)] else []
  }

  /**
   * The chunks that the loop of `chunk_text` appends while it walks `pieces`
   * with buffer `cur`, including the final flush.
   */
  function Fill(pieces: seq<string>, maxLength: int, cur: string): seq<string>
    decreases |pieces|
  {
    if pieces == [] then Flush(cur)
    else
      var s := Strip(pieces[0]);
      if s == "" then Fill(pieces[1..], maxLength, cur)
      else if |cur| + |s| < maxLength then Fill(pieces[1..], maxLength, cur + s + ". ")
      else Flush(cur) + Fill(pieces[1..], maxLength, s + ". ")
  }

  /** `chunk_text(text, max_length)` (step2.py:30-54). */
  function Chunks(text: string, maxLength: int): seq<string>
  {
    if |text| <= maxLength then [text]
    else
      var cs := Fill(SplitSentences(text), maxLength, "");
      if cs == [] then [text] else cs
  }

  /** A piece that strips to nothing adds nothing to the buffer. */
  lemma FillSkip(pieces: seq<string>, maxLength: int, cur: string)
    requires pieces != [] && Strip(pieces[0]) == ""
    ensures Fill(pieces, maxLength, cur) == Fill(pieces[1..], maxLength, cur)
  {
  }

  /** A sentence that fits goes into the buffer with its ". ". */
  lemma FillExtend(pieces: seq<string>, maxLength: int, cur: string)
    requires pieces != [] && Strip(pieces[0]) != "" && |cur| + |Strip(pieces[0])| < maxLength
    ensures Fill(pieces, maxLength, cur) == Fill(pieces[1..], maxLength, cur + Strip(pieces[0]) + ". ")
  {
  }

  /** A sentence that does not fit flushes the buffer and starts a new one. */
  lemma FillFlush(pieces: seq<string>, maxLength: int, cur: string)
    requires pieces != [] && Strip(pieces[0]) != "" && |cur| + |Strip(pieces[0])| >= maxLength
    ensures Fill(pieces, maxLength, cur) == Flush(cur) + Fill(pieces[1..], maxLength, Strip(pieces[0]) + ". ")
  {
  }

  lemma SentencesSkip(pieces: seq<string>)
    requires pieces != [] && Strip(pieces[0]) == ""
    ensures Sentences(pieces) == Sentences(pieces[1..])
  {
  }

  lemma SentencesKeep(pieces: seq<string>)
    requires pieces != [] && Strip(pieces[0]) != ""
    ensures Sentences(pieces) == [Strip(pieces[0])] + Sentences(pieces[1..])
  {
  }

  lemma DottedCons(s: string, rest: seq<string>)
    ensures Dotted([s] + rest) == s + ". " + Dotted(rest)
  {
    assert ([s] + rest)[1..] == rest;
  }

  /** A flushed buffer is non-empty, stripped, ends in its last sentence's period, and gives back the buffer with its trailing space. */
  lemma FlushedBuffer(cur: string, maxLength: int)
    requires Buffer(cur, maxLength) && cur != ""
    ensures Strip(cur) == cur[..|cur| - 1]
    ensures Strip(cur) != "" && IsStripped(Strip(cur)) && Strip(cur) + " " == cur
    ensures Strip(cur)[|Strip(cur)| - 1] == '.'
    ensures |Strip(cur)| > maxLength ==> SingleSentence(Strip(cur))
  {
    StripOneTrailingSpace(cur);
    var c := cur[..|cur| - 1];
    assert c[..|c| - 1] == cur[..|cur| - 2];
  }

  /** Appending a stripped sentence and ". " keeps a buffer a buffer, on both branches of the loop. */
  lemma ExtendBuffer(cur: string, s: string, maxLength: int)
    requires Buffer(cur, maxLength)
    requires s != "" && IsStripped(s) && NoTerminator(s)
    requires |cur| + |s| < maxLength || cur == ""
    ensures Buffer(cur + s + ". ", maxLength)
  {
    var n := cur + s + ". ";
    if |n| > maxLength + 1 {
      assert cur == "";
      assert n[..|n| - 2] == s;
    }
  }

  /** Every piece of the split holds no terminator, so neither does its stripped form. */
  lemma StrippedNoTerminator(p: string)
    requires NoTerminator(p)
    ensures NoTerminator(Strip(p))
  {
    var k := LeadCount(p);
    assert forall i :: 0 <= i < |Strip(p)| ==> Strip(p)[i] == p[k + i];
  }

  /** The pieces after the first hold no terminator either. */
  lemma RestNoTerminator(pieces: seq<string>)
    requires pieces != []
    requires forall k :: 0 <= k < |pieces| ==> NoTerminator(pieces[k])
    ensures forall k :: 0 <= k < |pieces| - 1 ==> NoTerminator(pieces[1..][k])
  {
    assert forall k :: 0 <= k < |pieces| - 1 ==> pieces[1..][k] == pieces[k + 1];
  }

  /**
   * The loop loses nothing: the chunks, each given back one space, spell the
   * buffer followed by every kept sentence with its ". ", in order.
   */
  lemma {:induction false} FillKeepsSentences(pieces: seq<string>, maxLength: int, cur: string)
    requires Buffer(cur, maxLength)
    requires forall k :: 0 <= k < |pieces| ==> NoTerminator(pieces[k])
    decreases |pieces|
    ensures Spaced(Fill(pieces, maxLength, cur)) == cur + Dotted(Sentences(pieces))
  {
    if pieces == [] {
      if cur != "" {
        FlushedBuffer(cur, maxLength);
      }
    } else {
      var s := Strip(pieces[0]);
      var rest := pieces[1..];
      RestNoTerminator(pieces);
      StrippedNoTerminator(pieces[0]);
      if s == "" {
        FillSkip(pieces, maxLength, cur);
        SentencesSkip(pieces);
        FillKeepsSentences(rest, maxLength, cur);
      } else if |cur| + |s| < maxLength {
        ExtendBuffer(cur, s, maxLength);
        FillKeepsSentences(rest, maxLength, cur + s + ". ");
        KeepsOnExtend(pieces, maxLength, cur);
      } else {
        ExtendBuffer("", s, maxLength);
        assert "" + s + ". " == s + ". ";
        FillKeepsSentences(rest, maxLength, s + ". ");
        KeepsOnFlush(pieces, maxLength, cur);
      }
    }
  }

  lemma KeepsOnExtend(pieces: seq<string>, maxLength: int, cur: string)
    requires pieces != [] && Strip(pieces[0]) != "" && |cur| + |Strip(pieces[0])| < maxLength
    requires Spaced(Fill(pieces[1..], maxLength, cur + Strip(pieces[0]) + ". "))
      == cur + Strip(pieces[0]) + ". " + Dotted(Sentences(pieces[1..]))
    ensures Spaced(Fill(pieces, maxLength, cur)) == cur + Dotted(Sentences(pieces))
  {
    var s := Strip(pieces[0]);
    var rest := pieces[1..];
    FillExtend(pieces, maxLength, cur);
    SentencesKeep(pieces);
    DottedCons(s, Sentences(rest));
    AppendAssociative(cur, s, ". ");
    AppendAssociative(cur, s + ". ", Dotted(Sentences(rest)));
  }

  lemma KeepsOnFlush(pieces: seq<string>, maxLength: int, cur: string)
    requires pieces != [] && Strip(pieces[0]) != "" && |cur| + |Strip(pieces[0])| >= maxLength
    requires Buffer(cur, maxLength)
    requires Spaced(Fill(pieces[1..], maxLength, Strip(pieces[0]) + ". "))
      == Strip(pieces[0]) + ". " + Dotted(Sentences(pieces[1..]))
    ensures Spaced(Fill(pieces, maxLength, cur)) == cur + Dotted(Sentences(pieces))
  {
    var s := Strip(pieces[0]);
    var tail := Fill(pieces[1..], maxLength, s + ". ");
    FillFlush(pieces, maxLength, cur);
    SentencesKeep(pieces);
    DottedCons(s, Sentences(pieces[1..]));
    SpacedAppend(Flush(cur), tail);
    if cur != "" {
      FlushedBuffer(cur, maxLength);
      assert Spaced(Flush(cur)) == Strip(cur) + " " + Spaced([]);
    }
  }

  /**
   * A chunk as the loop appends it: non-empty, stripped, ending in the period
   * put after its last sentence, and over the bound only when it is a single
   * sentence.
   */
  predicate ChunkShape(c: string, maxLength: int) {
    c != "" && IsStripped(c) && c[|c| - 1] == '.' && (|c| > maxLength ==> SingleSentence(c))
  }

  predicate Shaped(cs: seq<string>, maxLength: int) {
    forall c :: c in cs ==> ChunkShape(c, maxLength)
  }

  lemma ShapedAppend(a: seq<string>, b: seq<string>, maxLength: int)
    requires Shaped(a, maxLength) && Shaped(b, maxLength)
    ensures Shaped(a + b, maxLength)
  {
  }

  lemma ShapeFlush(cur: string, maxLength: int)
    requires Buffer(cur, maxLength)
    ensures Shaped(Flush(cur), maxLength)
  {
    if cur != "" {
      FlushedBuffer(cur, maxLength);
    }
  }

  /** Every chunk is non-empty, stripped, ends in a period, and is over the bound only when it is a single sentence. */
  lemma {:induction false} FillChunkShape(pieces: seq<string>, maxLength: int, cur: string)
    requires Buffer(cur, maxLength)
    requires forall k :: 0 <= k < |pieces| ==> NoTerminator(pieces[k])
    decreases |pieces|
    ensures Shaped(Fill(pieces, maxLength, cur), maxLength)
  {
    if pieces == [] {
      ShapeFlush(cur, maxLength);
    } else {
      var s := Strip(pieces[0]);
      var rest := pieces[1..];
      RestNoTerminator(pieces);
      StrippedNoTerminator(pieces[0]);
      if s == "" {
        FillSkip(pieces, maxLength, cur);
        FillChunkShape(rest, maxLength, cur);
      } else if |cur| + |s| < maxLength {
        FillExtend(pieces, maxLength, cur);
        ExtendBuffer(cur, s, maxLength);
        FillChunkShape(rest, maxLength, cur + s + ". ");
      } else {
        FillFlush(pieces, maxLength, cur);
        ExtendBuffer("", s, maxLength);
        assert "" + s + ". " == s + ". ";
        FillChunkShape(rest, maxLength, s + ". ");
        ShapeFlush(cur, maxLength);
        ShapedAppend(Flush(cur), Fill(rest, maxLength, s + ". "), maxLength);
      }
    }
  }

  /** No chunk comes out of an empty buffer and no sentence, and some chunk comes out otherwise. */
  lemma FillEmpty(pieces: seq<string>, maxLength: int)
    requires forall k :: 0 <= k < |pieces| ==> NoTerminator(pieces[k])
    ensures Fill(pieces, maxLength, "") == [] <==> Sentences(pieces) == []
  {
    FillKeepsSentences(pieces, maxLength, "");
    var cs := Fill(pieces, maxLength, "");
    if cs != [] {
      assert |Spaced(cs)| > 0;
    }
    if Sentences(pieces) != [] {
      assert |Dotted(Sentences(pieces))| > 0;
    }
  }

  /**
   * What `chunk_text` promises. There is always at least one chunk. A text
   * within the bound is returned whole, and so is a text with no non-empty
   * sentence. Otherwise every chunk is non-empty, stripped and ends in a
   * period, a chunk over the bound is a single sentence, and the chunks, each
   * followed by a space, spell the kept sentences in order, each followed by
   * ". ". Since no sentence holds a terminator, the only periods in that
   * spelling are the ones after sentences, so every chunk ends where a
   * sentence ends: every sentence lands in exactly one chunk, and only
   * terminators and whitespace are lost.
   */
  lemma ChunksSpec(text: string, maxLength: int)
    ensures var r := Chunks(text, maxLength);
      var sentences := Sentences(SplitSentences(text));
      && |r| >= 1
      && (|text| <= maxLength ==> r == [text])
      && (|text| > maxLength && sentences == [] ==> r == [text])
      && (|text| > maxLength && sentences != [] ==>
            && (forall c :: c in r ==>
                  c != "" && IsStripped(c) && c[|c| - 1] == '.' && (|c| > maxLength ==> SingleSentence(c)))
            && Spaced(r) == Dotted(sentences))
  {
    if |text| > maxLength {
      var pieces := SplitSentences(text);
      SplitSentencesSpec(text);
      var cs := Fill(pieces, maxLength, "");
      FillKeepsSentences(pieces, maxLength, "");
      assert Spaced(cs) == Dotted(Sentences(pieces)) by {
        assert "" + Dotted(Sentences(pieces)) == Dotted(Sentences(pieces));
      }
      FillChunkShape(pieces, maxLength, "");
      assert Shaped(cs, maxLength);
      FillEmpty(pieces, maxLength);
    }
  }

  /** A text within the bound is its own single chunk. */
  lemma ShortText(text: string, maxLength: int)
    requires |text| <= maxLength
    ensures Chunks(text, maxLength) == [text]
  {
  }

  /** A text over the bound is chunked by the loop, or kept whole when the loop yields nothing. */
  lemma LongText(text: string, maxLength: int)
    requires |text| > maxLength
    ensures var cs := Fill(SplitSentences(text), maxLength, "");
      Chunks(text, maxLength) == if cs == [] then [text] else cs
  {
  }

  /** The loop of `chunk_text` over the pieces of the split, appending to `chunks`. */
  method ChunkText(text: string, maxLength: int) returns (chunks: seq<string>)
    ensures chunks == Chunks(text, maxLength)
  {
    if |text| <= maxLength {
      chunks := [text];
      ShortText(text, maxLength);
    } else {
      chunks := [];
      var pieces := SplitSentences(text);
      var current := "";
      ghost var all := Fill(pieces, maxLength, "");
      assert pieces[0..] == pieces;
      for i := 0 to |pieces|
        invariant chunks + Fill(pieces[i..], maxLength, current) == all
      {
        chunks, current := TakePiece(pieces, i, maxLength, chunks, current);
      }
      assert pieces[|pieces|..] == [];
      if current != "" {
        chunks := chunks + [Strip(current)];
      }
      assert chunks == all;
      if chunks == [] {
        chunks := [text];
      }
      LongText(text, maxLength);
    }
  }

  /**
   * One turn of the loop over piece `i`: skip a piece that strips to
   * nothing, add a sentence that fits to the buffer, or flush the buffer
   * and start a new one with the sentence.
   */
  method TakePiece(pieces: seq<string>, i: nat, maxLength: int, chunks: seq<string>, current: string)
    returns (nextChunks: seq<string>, nextCurrent: string)
    requires i < |pieces|
    ensures nextChunks + Fill(pieces[i + 1..], maxLength, nextCurrent) == chunks + Fill(pieces[i..], maxLength, current)
  {
    ghost var rest := pieces[i..];
    assert rest[0] == pieces[i] && rest[1..] == pieces[i + 1..];
    nextChunks, nextCurrent := chunks, current;
    var sentence := Strip(pieces[i]);
    if sentence == "" {
      FillSkip(rest, maxLength, current);
      return;
    }
    if |current| + |sentence| < maxLength {
      FillExtend(rest, maxLength, current);
      nextCurrent := current + sentence + ". ";
    } else {
      FillFlush(rest, maxLength, current);
      ghost var tail := Fill(pieces[i + 1..], maxLength, sentence + ". ");
      assert chunks + (Flush(current) + tail) == (chunks + Flush(current)) + tail;
      if current != "" {
        nextChunks := chunks + [Strip(current)];
      } else {
        assert chunks + Flush(current) == chunks;
      }
      nextCurrent := sentence + ". ";
    }
  }
}
