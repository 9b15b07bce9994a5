/**
 * `create_voyage_multimodal_embeddings` in both versions.
 *
 * step2.py turns a document's segments into one normalised text, chunks it
 * at 1500 characters, embeds every chunk with the first model of a fixed
 * list that succeeds, and averages the chunk vectors. A document none of
 * whose chunks could be embedded is dropped, and so is one whose chunk
 * vectors cannot be averaged because their lengths differ.
 *
 * v_embed.py sends the segments themselves, one input per segment, to the
 * multimodal model and drops a document when that call fails.
 *
 * The embedding service is a parameter: a function from the model name and
 * the input to the vector or `None` for a failed call.
 */
module Embedding {
  import opened Wrappers
  import opened Strings
  import opened Normalize
  import opened Chunking
  import opened Sequences

  type Vector = seq<real>

  /** The text embedding service: the vector `model` returns for a text, or `None` when the call fails. */
  type Embedder = (string, string) -> Option<Vector>

  /** The models step2.py tries, in order. */
  const Models: seq<string> := ["voyage-large-2", "voyage-02", "voyage-01"]

  /** The chunk length used for the combined text. */
  const MaxChunkLength: int := 1500

  // ---------------------------------------------------------------------
  // The combined text of a document (step2.py)
  // ---------------------------------------------------------------------

  /** The opening of every image item. */
  const ImageMarkOpen: string := "[이미지"

  /**
   * What one segment contributes to `text_content`: a text segment its
   * normalised text when that is not empty, an image `[이미지: ` plus the
   * normalised caption plus `]` when it has a non-empty caption, and
   * `[이미지]` otherwise.
   */
  function TextItem(seg: Segment): (r: Option<string>)
    ensures seg.Text? ==> (r.Some? <==> Preprocess(seg.content) != "")
    ensures seg.Text? && r.Some? ==> r.value == Preprocess(seg.content)
    ensures seg.Image? ==> r.Some? && |r.value| > |ImageMarkOpen| && r.value[..|ImageMarkOpen|] == ImageMarkOpen
    ensures seg.Image? && seg.caption.Some? && seg.caption.value != "" ==> r == Some("[이미지: " + Preprocess(seg.caption.value) + "]")
    ensures seg.Image? && !(seg.caption.Some? && seg.caption.value != "") ==> r == Some("[이미지]")
  {
    match seg
    case Text(content) =>
      var processed := Preprocess(content);
      if processed != "" then Some(processed) else None
    case Image(_, _, caption) =>
      if caption.Some? && caption.value != "" then Some("[이미지: " + Preprocess(caption.value) + "]")
      else Some("[이미지]")
  }

  /** The `text_content` list step2.py builds from a document's segments. */
  function TextItems(content: seq<Segment>): seq<string>
  {
    if content == [] then []
    else TextItems(content[..|content| - 1]) + Present(TextItem(content[|content| - 1]))
  }

  /** The string the chunks are cut from: the items joined by single spaces. */
  function CombinedText(content: seq<Segment>): string
  {
    Join(" ", TextItems(content))
  }

  /** An item that begins with `[`: only images contribute such items. */
  predicate IsImageMark(item: string) {
    item != "" && item[0] == '['
  }

  /** The items that stand for images, in order. */
  function ImageMarks(items: seq<string>): seq<string>
  {
    if items == [] then []
    else ImageMarks(items[..|items| - 1]) + (if IsImageMark(items[|items| - 1]) then [items[|items| - 1]] else [])
  }

  /** The items that are document text, in order. */
  function PlainItems(items: seq<string>): seq<string>
  {
    if items == [] then []
    else PlainItems(items[..|items| - 1]) + (if IsImageMark(items[|items| - 1]) then [] else [items[|items| - 1]])
  }

  /** The normalised texts that are not empty, in order. */
  function Normalised(texts: seq<string>): seq<string>
  {
    if texts == [] then []
    else Normalised(texts[..|texts| - 1]) + (if Preprocess(texts[|texts| - 1]) != "" then [Preprocess(texts[|texts| - 1])] else [])
  }

  /** The normaliser never yields `[`, so no text item looks like an image item. */
  lemma PreprocessNoBracket(s: string)
    requires Preprocess(s) != ""
    ensures !IsImageMark(Preprocess(s))
  {
    PreprocessSpec(s);
    assert IsWordChar(Preprocess(s)[0]) || Preprocess(s)[0] == ' ';
  }

  lemma {:induction false} ImageMarksAppend(a: seq<string>, b: seq<string>)
    ensures ImageMarks(a + b) == ImageMarks(a) + ImageMarks(b)
  {
    if b == [] {
      assert a + b == a;
    } else {
      assert (a + b)[..|a + b| - 1] == a + b[..|b| - 1];
      ImageMarksAppend(a, b[..|b| - 1]);
    }
  }

  lemma {:induction false} PlainItemsAppend(a: seq<string>, b: seq<string>)
    ensures PlainItems(a + b) == PlainItems(a) + PlainItems(b)
  {
    if b == [] {
      assert a + b == a;
    } else {
      assert (a + b)[..|a + b| - 1] == a + b[..|b| - 1];
      PlainItemsAppend(a, b[..|b| - 1]);
    }
  }

  lemma {:induction false} NormalisedAppend(a: seq<string>, b: seq<string>)
    ensures Normalised(a + b) == Normalised(a) + Normalised(b)
  {
    if b == [] {
      assert a + b == a;
    } else {
      assert (a + b)[..|a + b| - 1] == a + b[..|b| - 1];
      NormalisedAppend(a, b[..|b| - 1]);
    }
  }

  /** Every item of the combined text is non-empty. */
  lemma {:induction false} TextItemsNonEmpty(content: seq<Segment>)
    ensures forall k :: 0 <= k < |TextItems(content)| ==> TextItems(content)[k] != ""
  {
    if content != [] {
      TextItemsNonEmpty(content[..|content| - 1]);
    }
  }

  /**
   * There is exactly one image item per image segment, in order: image item
   * `k` is what image segment `k` contributes, `[이미지: ` plus its normalised
   * caption plus `]`, or `[이미지]`.
   */
  lemma {:induction false} TextItemsImages(content: seq<Segment>)
    ensures |ImageMarks(TextItems(content))| == |Images(content)|
    ensures forall k :: 0 <= k < |Images(content)| ==>
      Images(content)[k].Image? && TextItem(Images(content)[k]) == Some(ImageMarks(TextItems(content))[k])
  {
    if content != [] {
      var init, last := content[..|content| - 1], content[|content| - 1];
      TextItemsImages(init);
      var piece := Present(TextItem(last));
      ImageMarksAppend(TextItems(init), piece);
      if last.Text? && TextItem(last).Some? {
        PreprocessNoBracket(last.content);
      }
      var lastImages := if last.Image? then [last] else [];
      assert ImageMarks(piece) == if last.Image? then piece else [] by {
        assert piece == [] || piece[..0] == [];
      }
      ImageItemsCons(ImageMarks(TextItems(init)), Images(init), ImageMarks(piece), lastImages);
    }
  }

  /** Image items matched to image segments one by one stay matched when both lists grow by a matched pair. */
  lemma ImageItemsCons(marks: seq<string>, images: seq<Segment>, moreMarks: seq<string>, moreImages: seq<Segment>)
    requires |marks| == |images| && |moreMarks| == |moreImages|
    requires forall k :: 0 <= k < |images| ==> images[k].Image? && TextItem(images[k]) == Some(marks[k])
    requires forall k :: 0 <= k < |moreImages| ==> moreImages[k].Image? && TextItem(moreImages[k]) == Some(moreMarks[k])
    ensures forall k :: 0 <= k < |images + moreImages| ==>
      (images + moreImages)[k].Image? && TextItem((images + moreImages)[k]) == Some((marks + moreMarks)[k])
  {
    forall k | 0 <= k < |images + moreImages|
      ensures (images + moreImages)[k].Image? && TextItem((images + moreImages)[k]) == Some((marks + moreMarks)[k])
    {
      if k < |images| {
        assert (images + moreImages)[k] == images[k] && (marks + moreMarks)[k] == marks[k];
      } else {
        assert (images + moreImages)[k] == moreImages[k - |images|] && (marks + moreMarks)[k] == moreMarks[k - |images|];
      }
    }
  }

  /** The other items are the normalised non-empty texts of the text segments, in order. */
  lemma {:induction false} TextItemsTexts(content: seq<Segment>)
    ensures PlainItems(TextItems(content)) == Normalised(Texts(content))
  {
    if content != [] {
      var init, last := content[..|content| - 1], content[|content| - 1];
      TextItemsTexts(init);
      var piece := Present(TextItem(last));
      PlainItemsAppend(TextItems(init), piece);
      var tail := if last.Text? then [last.content] else [];
      assert Texts(content) == Texts(init) + tail;
      NormalisedAppend(Texts(init), tail);
      if last.Text? {
        assert tail[..0] == [];
        if TextItem(last).Some? {
          PreprocessNoBracket(last.content);
          assert piece[..0] == [];
        }
      } else {
        assert piece[..0] == [];
      }
    }
  }

  /** The item loop of step2.py. */
  method CollectTextItems(content: seq<Segment>) returns (items: seq<string>)
    ensures items == TextItems(content)
  {
    items := [];
    for i := 0 to |content|
      invariant items == TextItems(content[..i])
    {
      assert content[..i + 1][..i] == content[..i];
      var item := content[i];
      if item.Text? {
        var processedText := Preprocess(item.content);
        if processedText != "" {
          items := items + [processedText];
        }
      } else if item.caption.Some? && item.caption.value != "" {
        var caption := Preprocess(item.caption.value);
        items := items + ["[이미지: " + caption + "]"];
      } else {
        items := items + ["[이미지]"];
      }
    }
    assert content[..|content|] == content;
  }

  // ---------------------------------------------------------------------
  // Model fallback
  // ---------------------------------------------------------------------

  /** A successful call: the model that answered and its vector. */
  datatype Embedded = Embedded(model: string, vector: Vector)

  /** The first model of `models` whose call succeeds on `text`, with its vector. */
  function FirstSuccess(embed: Embedder, models: seq<string>, text: string): (r: Option<Embedded>)
    ensures r.Some? ==> r.value.model in models && embed(r.value.model, text) == Some(r.value.vector)
  {
    if models == [] then None
    else
      var answer := embed(models[0], text);
      if answer.Some? then Some(Embedded(models[0], answer.value)) else FirstSuccess(embed, models[1..], text)
  }

  /** No vector exactly when every model fails. */
  lemma {:induction false} FirstSuccessNone(embed: Embedder, models: seq<string>, text: string)
    ensures FirstSuccess(embed, models, text).None? <==> forall k :: 0 <= k < |models| ==> embed(models[k], text).None?
  {
    if models != [] {
      FirstSuccessNone(embed, models[1..], text);
      assert forall k :: 1 <= k < |models| ==> models[k] == models[1..][k - 1];
    }
  }

  /** When model `k` is the first that succeeds, its answer is the one recorded. */
  lemma {:induction false} FirstSuccessAt(embed: Embedder, models: seq<string>, text: string, k: nat)
    requires k < |models| && embed(models[k], text).Some?
    requires forall j :: 0 <= j < k ==> embed(models[j], text).None?
    ensures FirstSuccess(embed, models, text) == Some(Embedded(models[k], embed(models[k], text).value))
  {
    if k > 0 {
      assert embed(models[0], text).None?;
      assert forall j :: 0 <= j < k - 1 ==> models[1..][j] == models[j + 1];
      FirstSuccessAt(embed, models[1..], text, k - 1);
    }
  }

  /** The `for model_name in models_to_try` loop with its `break` on the first success. */
  method TryModels(embed: Embedder, models: seq<string>, text: string) returns (r: Option<Embedded>)
    ensures r == FirstSuccess(embed, models, text)
  {
    r := None;
    var k := 0;
    while k < |models|
      invariant k <= |models|
      invariant FirstSuccess(embed, models, text) == FirstSuccess(embed, models[k..], text)
    {
      assert models[k..][1..] == models[k + 1..];
      assert models[k..][0] == models[k];
      var result := embed(models[k], text);
      if result.Some? {
        r := Some(Embedded(models[k], result.value));
        assert r == FirstSuccess(embed, models[k..], text);
        return;
      }
      k := k + 1;
    }
    assert models[k..] == [];
  }

  // ---------------------------------------------------------------------
  // Chunk embeddings
  // ---------------------------------------------------------------------

  /** One entry of `chunk_embeddings`. */
  datatype ChunkEmbedding = ChunkEmbedding(chunkIndex: nat, text: string, embedding: Vector, modelUsed: string)

  /** What chunk `j` adds: its entry when some model embeds it, nothing otherwise. */
  function ChunkResult(embed: Embedder, chunks: seq<string>, j: nat): seq<ChunkEmbedding>
    requires j < |chunks|
  {
    var r := FirstSuccess(embed, Models, chunks[j]);
    if r.Some? then [ChunkEmbedding(j, chunks[j], r.value.vector, r.value.model)] else []
  }

  /** The entries for the first `n` chunks. */
  function ChunkEmbeddings(embed: Embedder, chunks: seq<string>, n: nat): seq<ChunkEmbedding>
    requires n <= |chunks|
  {
    if n == 0 then [] else ChunkEmbeddings(embed, chunks, n - 1) + ChunkResult(embed, chunks, n - 1)
  }

  /**
   * Every entry is for one of the chunks, holds that chunk's text, and holds
   * the answer of the first model that embeds it.
   */
  lemma {:induction false} ChunkEmbeddingsSound(embed: Embedder, chunks: seq<string>, n: nat)
    requires n <= |chunks|
    ensures forall k :: 0 <= k < |ChunkEmbeddings(embed, chunks, n)| ==>
      var e := ChunkEmbeddings(embed, chunks, n)[k];
      && e.chunkIndex < n && e.text == chunks[e.chunkIndex]
      && FirstSuccess(embed, Models, e.text) == Some(Embedded(e.modelUsed, e.embedding))
  {
    if n > 0 {
      ChunkEmbeddingsSound(embed, chunks, n - 1);
    }
  }

  /** Chunk indices strictly increase, so a chunk has at most one entry. */
  lemma {:induction false} ChunkEmbeddingsIncreasing(embed: Embedder, chunks: seq<string>, n: nat)
    requires n <= |chunks|
    ensures forall a, b :: 0 <= a < b < |ChunkEmbeddings(embed, chunks, n)| ==>
      ChunkEmbeddings(embed, chunks, n)[a].chunkIndex < ChunkEmbeddings(embed, chunks, n)[b].chunkIndex
  {
    if n > 0 {
      ChunkEmbeddingsIncreasing(embed, chunks, n - 1);
      ChunkEmbeddingsSound(embed, chunks, n - 1);
    }
  }

  /** Every chunk some model embeds has an entry. */
  lemma {:induction false} ChunkEmbeddingsComplete(embed: Embedder, chunks: seq<string>, n: nat, j: nat)
    requires j < n <= |chunks|
    requires FirstSuccess(embed, Models, chunks[j]).Some?
    ensures exists k :: 0 <= k < |ChunkEmbeddings(embed, chunks, n)| && ChunkEmbeddings(embed, chunks, n)[k].chunkIndex == j
  {
    var before := ChunkEmbeddings(embed, chunks, n - 1);
    if j == n - 1 {
      assert ChunkEmbeddings(embed, chunks, n)[|before|].chunkIndex == j;
    } else {
      ChunkEmbeddingsComplete(embed, chunks, n - 1, j);
      var k :| 0 <= k < |before| && before[k].chunkIndex == j;
      assert ChunkEmbeddings(embed, chunks, n)[k] == before[k];
    }
  }

  /** There are no entries exactly when no model embeds any chunk. */
  lemma {:induction false} ChunkEmbeddingsEmpty(embed: Embedder, chunks: seq<string>, n: nat)
    requires n <= |chunks|
    ensures ChunkEmbeddings(embed, chunks, n) == [] <==>
      forall j :: 0 <= j < n ==> FirstSuccess(embed, Models, chunks[j]).None?
  {
    if n > 0 {
      ChunkEmbeddingsEmpty(embed, chunks, n - 1);
    }
  }

  /** The chunk loop of step2.py. */
  method EmbedChunks(embed: Embedder, chunks: seq<string>) returns (chunkEmbeddings: seq<ChunkEmbedding>)
    ensures chunkEmbeddings == ChunkEmbeddings(embed, chunks, |chunks|)
  {
    chunkEmbeddings := [];
    for j := 0 to |chunks|
      invariant chunkEmbeddings == ChunkEmbeddings(embed, chunks, j)
    {
      var r := TryModels(embed, Models, chunks[j]);
      if r.Some? {
        chunkEmbeddings := chunkEmbeddings + [ChunkEmbedding(j, chunks[j], r.value.vector, r.value.model)];
      }
    }
  }

  // ---------------------------------------------------------------------
  // Averaging
  // ---------------------------------------------------------------------

  /** All vectors have the length of the first: what `np.mean(..., axis=0)` needs. */
  predicate Uniform(vs: seq<Vector>)
  {
    forall k :: 0 <= k < |vs| ==> |vs[k]| == |vs[0]|
  }

  /** The sum of component `i` over the first `n` vectors. */
  function ColumnSum(vs: seq<Vector>, i: nat, n: nat): real
    requires n <= |vs|
    requires forall k :: 0 <= k < n ==> i < |vs[k]|
  {
    if n == 0 then 0.0 else ColumnSum(vs, i, n - 1) + vs[n - 1][i]
  }

  /**
   * The column-wise mean, over exact reals. Vectors of different lengths
   * have no mean: `np.mean` raises, and the document is dropped.
   */
  function Mean(vs: seq<Vector>): (r: Option<Vector>)
    requires vs != []
    ensures r.Some? <==> Uniform(vs)
    ensures r.Some? ==> |r.value| == |vs[0]|
  {
    if Uniform(vs) then
      Some(seq(|vs[0]|, i requires 0 <= i < |vs[0]| => ColumnSum(vs, i, |vs|) / (|vs| as real)))
    else None
  }

  lemma {:induction false} ColumnSumOfCopies(vs: seq<Vector>, v: Vector, i: nat, n: nat)
    requires n <= |vs| && i < |v|
    requires forall k :: 0 <= k < |vs| ==> vs[k] == v
    ensures ColumnSum(vs, i, n) == (n as real) * v[i]
  {
    if n > 0 {
      ColumnSumOfCopies(vs, v, i, n - 1);
    }
  }

  /** Vectors that are all the same average to that vector; in particular a single vector does. */
  lemma MeanOfCopies(vs: seq<Vector>, v: Vector)
    requires vs != []
    requires forall k :: 0 <= k < |vs| ==> vs[k] == v
    ensures Mean(vs) == Some(v)
  {
    assert Uniform(vs);
    var m := Mean(vs).value;
    var n := |vs| as real;
    forall i | 0 <= i < |v| ensures m[i] == v[i] {
      ColumnSumOfCopies(vs, v, i, |vs|);
      assert m[i] == (n * v[i]) / n;
    }
    assert m == v;
  }

  // ---------------------------------------------------------------------
  // Documents (step2.py)
  // ---------------------------------------------------------------------

  /** One entry of the result of step2.py's embedding step. */
  datatype DocEmbedding = DocEmbedding(pdfName: string, content: seq<Segment>, embedding: Vector, text: string, chunks: seq<ChunkEmbedding>)

  /** The vectors of the chunk entries. */
  function Vectors(ces: seq<ChunkEmbedding>): (vs: seq<Vector>)
    ensures |vs| == |ces|
    ensures forall k :: 0 <= k < |ces| ==> vs[k] == ces[k].embedding
  {
    seq(|ces|, k requires 0 <= k < |ces| => ces[k].embedding)
  }

  /** The chunks of a document's combined text. */
  function DocChunks(s: Sequence): seq<string>
  {
    Chunks(CombinedText(s.content), MaxChunkLength)
  }

  /** The chunk entries of a document. */
  function DocChunkEmbeddings(embed: Embedder, s: Sequence): seq<ChunkEmbedding>
  {
    ChunkEmbeddings(embed, DocChunks(s), |DocChunks(s)|)
  }

  /** A document's embedding, or `None` when it is dropped. */
  function EmbedDocument(embed: Embedder, s: Sequence): Option<DocEmbedding>
  {
    var ces := DocChunkEmbeddings(embed, s);
    if ces == [] then None
    else
      var avg := Mean(Vectors(ces));
      if avg.Some? then Some(DocEmbedding(s.pdfName, s.content, avg.value, CombinedText(s.content), ces))
      else None
  }

  /** The per-document results of the document loop. */
  function DocResults(embed: Embedder, sequences: seq<Sequence>): (r: seq<Option<DocEmbedding>>)
    ensures |r| == |sequences|
    ensures forall i :: 0 <= i < |sequences| ==> r[i] == EmbedDocument(embed, sequences[i])
  {
    seq(|sequences|, i requires 0 <= i < |sequences| => EmbedDocument(embed, sequences[i]))
  }

  /**
   * A document is kept exactly when some model embeds one of its chunks and
   * the chunk vectors have one length.
   */
  lemma EmbedDocumentKept(embed: Embedder, s: Sequence)
    ensures var chunks := DocChunks(s);
      var ces := DocChunkEmbeddings(embed, s);
      EmbedDocument(embed, s).Some? <==>
        (exists j :: 0 <= j < |chunks| && FirstSuccess(embed, Models, chunks[j]).Some?) && Uniform(Vectors(ces))
  {
    var chunks := DocChunks(s);
    ChunkEmbeddingsEmpty(embed, chunks, |chunks|);
  }

  /**
   * A kept document keeps its name, segments and combined text, records its
   * chunk entries, and its vector has the length of theirs.
   */
  lemma EmbedDocumentFields(embed: Embedder, s: Sequence)
    requires EmbedDocument(embed, s).Some?
    ensures var r := EmbedDocument(embed, s).value;
      var ces := DocChunkEmbeddings(embed, s);
      && r.pdfName == s.pdfName && r.content == s.content
      && r.text == CombinedText(s.content) && r.chunks == ces
      && ces != [] && |r.embedding| == |ces[0].embedding|
  {
  }

  /** With a single chunk entry, the document's vector is that chunk's vector. */
  lemma EmbedDocumentOneChunk(embed: Embedder, s: Sequence)
    requires |DocChunkEmbeddings(embed, s)| == 1
    ensures EmbedDocument(embed, s).Some?
    ensures EmbedDocument(embed, s).value.embedding == DocChunkEmbeddings(embed, s)[0].embedding
  {
    var ces := DocChunkEmbeddings(embed, s);
    MeanOfCopies(Vectors(ces), ces[0].embedding);
  }

  /** step2.py's `create_voyage_multimodal_embeddings`: the documents that are kept, in order. */
  method CreateEmbeddings(embed: Embedder, sequences: seq<Sequence>) returns (embeddings: seq<DocEmbedding>)
    ensures embeddings == Kept(DocResults(embed, sequences))
  {
    ghost var results := DocResults(embed, sequences);
    embeddings := [];
    for i := 0 to |sequences|
      invariant embeddings == Kept(results[..i])
    {
      assert results[..i + 1][..i] == results[..i];
      var embedding := EmbedOne(embed, sequences[i]);
      if embedding.Some? {
        embeddings := embeddings + [embedding.value];
      }
      assert results[i] == embedding;
    }
    assert results[..|sequences|] == results;
  }

  /** The loop body for one document: combine, chunk, embed each chunk, and average when some chunk was embedded. */
  method EmbedOne(embed: Embedder, sequence: Sequence) returns (embedding: Option<DocEmbedding>)
    ensures embedding == EmbedDocument(embed, sequence)
  {
    var textContent := CollectTextItems(sequence.content);
    var combinedText := Join(" ", textContent);
    var textChunks := ChunkText(combinedText, MaxChunkLength);
    var chunkEmbeddings := EmbedChunks(embed, textChunks);
    embedding := None;
    if chunkEmbeddings != [] {
      var avgEmbedding := Mean(Vectors(chunkEmbeddings));
      if avgEmbedding.Some? {
        embedding := Some(DocEmbedding(sequence.pdfName, sequence.content, avgEmbedding.value, combinedText, chunkEmbeddings));
      }
    }
  }

  /**
   * The result keeps input order and drops only documents that fail: entry
   * `k` is the embedding of document `kept[k]`, the positions `kept`
   * strictly increase, and every document that can be embedded is among them.
   */
  lemma CreateEmbeddingsOrder(embed: Embedder, sequences: seq<Sequence>)
    ensures var results := DocResults(embed, sequences);
      var kept := KeptIndices(results);
      && |Kept(results)| == |kept| && Increasing(kept)
      && (forall k :: 0 <= k < |kept| ==> kept[k] < |sequences| && EmbedDocument(embed, sequences[kept[k]]) == Some(Kept(results)[k]))
      && (forall i :: 0 <= i < |sequences| && EmbedDocument(embed, sequences[i]).Some? ==> i in kept)
  {
    var results := DocResults(embed, sequences);
    KeptAt(results);
    KeptIncreasing(results);
    forall i | 0 <= i < |sequences| && EmbedDocument(embed, sequences[i]).Some? ensures i in KeptIndices(results) {
      KeptComplete(results, i);
    }
  }

  // ---------------------------------------------------------------------
  // Documents (v_embed.py)
  // ---------------------------------------------------------------------

  /** One item of `multimodal_input`. */
  datatype Input = InputText(text: string) | InputImage(image: string)

  /** The multimodal service: the vector `model` returns for the inputs with an input type, or `None` when the call fails. */
  type MultimodalEmbedder = (string, seq<Input>, string) -> Option<Vector>

  const MultimodalModel: string := "voyage-multimodal-3"

  /** A segment as an input: its text, or its data URI. */
  function ToInput(seg: Segment): Input
  {
    match seg
    case Text(content) => InputText(content)
    case Image(content, _, _) => InputImage(content)
  }

  /** `multimodal_input`: one input per segment, in order. */
  function MultimodalInput(content: seq<Segment>): (r: seq<Input>)
    ensures |r| == |content|
  {
    if content == [] then [] else MultimodalInput(content[..|content| - 1]) + [ToInput(content[|content| - 1])]
  }

  /** The texts of the text inputs, in order. */
  function InputTexts(inputs: seq<Input>): seq<string>
  {
    if inputs == [] then []
    else InputTexts(inputs[..|inputs| - 1]) + (if inputs[|inputs| - 1].InputText? then [inputs[|inputs| - 1].text] else [])
  }

  /** The images of the image inputs, in order. */
  function InputImages(inputs: seq<Input>): seq<string>
  {
    if inputs == [] then []
    else InputImages(inputs[..|inputs| - 1]) + (if inputs[|inputs| - 1].InputImage? then [inputs[|inputs| - 1].image] else [])
  }

  /** The data URIs of the image segments, in order. */
  function ImageData(content: seq<Segment>): seq<string>
  {
    if content == [] then []
    else ImageData(content[..|content| - 1]) + (if content[|content| - 1].Image? then [content[|content| - 1].content] else [])
  }

  /** Input `i` is text or image as segment `i` is, with the same text or data. */
  lemma {:induction false} MultimodalInputAt(content: seq<Segment>)
    ensures forall i :: 0 <= i < |content| ==>
      var r := MultimodalInput(content)[i];
      && (r.InputText? <==> content[i].Text?)
      && (r.InputText? ==> r.text == content[i].content)
      && (r.InputImage? ==> r.image == content[i].content)
  {
    if content != [] {
      var init := content[..|content| - 1];
      MultimodalInputAt(init);
      assert forall i :: 0 <= i < |init| ==> MultimodalInput(content)[i] == MultimodalInput(init)[i] && content[i] == init[i];
    }
  }

  /** The text inputs carry exactly the texts of the text segments, in order. */
  lemma {:induction false} MultimodalInputTexts(content: seq<Segment>)
    ensures InputTexts(MultimodalInput(content)) == Texts(content)
  {
    if content != [] {
      var init := content[..|content| - 1];
      MultimodalInputTexts(init);
      assert MultimodalInput(content)[..|content| - 1] == MultimodalInput(init);
    }
  }

  /** The image inputs carry exactly the data of the image segments, in order. */
  lemma {:induction false} MultimodalInputImages(content: seq<Segment>)
    ensures InputImages(MultimodalInput(content)) == ImageData(content)
  {
    if content != [] {
      var init := content[..|content| - 1];
      MultimodalInputImages(init);
      assert MultimodalInput(content)[..|content| - 1] == MultimodalInput(init);
    }
  }

  /** The input loop of v_embed.py. */
  method BuildMultimodalInput(content: seq<Segment>) returns (inputs: seq<Input>)
    ensures inputs == MultimodalInput(content)
  {
    inputs := [];
    for i := 0 to |content|
      invariant inputs == MultimodalInput(content[..i])
    {
      assert content[..i + 1][..i] == content[..i];
      var item := content[i];
      if item.Text? {
        inputs := inputs + [InputText(item.content)];
      } else {
        inputs := inputs + [InputImage(item.content)];
      }
    }
    assert content[..|content|] == content;
  }

  /** One entry of the result of v_embed.py's embedding step. */
  datatype ParsedEmbedding = ParsedEmbedding(pdfName: string, content: seq<Segment>, embedding: Vector)

  /** A document's embedding in v_embed.py, or `None` when the call fails. */
  function EmbedParsed(embed: MultimodalEmbedder, s: Sequence): Option<ParsedEmbedding>
  {
    var r := embed(MultimodalModel, MultimodalInput(s.content), "document");
    if r.Some? then Some(ParsedEmbedding(s.pdfName, s.content, r.value)) else None
  }

  /** The call fails exactly when the document is dropped; a kept document has its name, segments and the returned vector. */
  lemma EmbedParsedSpec(embed: MultimodalEmbedder, s: Sequence)
    ensures var answer := embed(MultimodalModel, MultimodalInput(s.content), "document");
      && (EmbedParsed(embed, s).Some? <==> answer.Some?)
      && (answer.Some? ==> EmbedParsed(embed, s).value == ParsedEmbedding(s.pdfName, s.content, answer.value))
  {
  }

  function ParsedResults(embed: MultimodalEmbedder, sequences: seq<Sequence>): (r: seq<Option<ParsedEmbedding>>)
    ensures |r| == |sequences|
    ensures forall i :: 0 <= i < |sequences| ==> r[i] == EmbedParsed(embed, sequences[i])
  {
    seq(|sequences|, i requires 0 <= i < |sequences| => EmbedParsed(embed, sequences[i]))
  }

  /** v_embed.py's `create_voyage_multimodal_embeddings`: the documents whose call succeeds, in order. */
  method CreateParsedEmbeddings(embed: MultimodalEmbedder, sequences: seq<Sequence>) returns (embeddings: seq<ParsedEmbedding>)
    ensures embeddings == Kept(ParsedResults(embed, sequences))
  {
    ghost var results := ParsedResults(embed, sequences);
    embeddings := [];
    for i := 0 to |sequences|
      invariant embeddings == Kept(results[..i])
    {
      assert results[..i + 1][..i] == results[..i];
      var sequence := sequences[i];
      var multimodalInput := BuildMultimodalInput(sequence.content);
      var result := embed(MultimodalModel, multimodalInput, "document");
      if result.Some? {
        embeddings := embeddings + [ParsedEmbedding(sequence.pdfName, sequence.content, result.value)];
      }
      assert results[i] == EmbedParsed(embed, sequence);
    }
    assert results[..|sequences|] == results;
  }

  /**
   * A failed call drops only its own document: the result is the embeddings
   * of the documents whose call succeeds, in input order, each with the
   * document's name and segments and the vector the service returned.
   */
  lemma CreateParsedEmbeddingsOrder(embed: MultimodalEmbedder, sequences: seq<Sequence>)
    ensures var results := ParsedResults(embed, sequences);
      var kept := KeptIndices(results);
      && |Kept(results)| == |kept| && Increasing(kept)
      && (forall k :: 0 <= k < |kept| ==>
            kept[k] < |sequences| && EmbedParsed(embed, sequences[kept[k]]) == Some(Kept(results)[k]))
      && (forall i :: 0 <= i < |sequences| ==>
            (i in kept <==> embed(MultimodalModel, MultimodalInput(sequences[i].content), "document").Some?))
  {
    var results := ParsedResults(embed, sequences);
    var kept := KeptIndices(results);
    KeptAt(results);
    KeptIncreasing(results);
    forall i | 0 <= i < |sequences|
      ensures i in kept <==> embed(MultimodalModel, MultimodalInput(sequences[i].content), "document").Some?
    {
      if results[i].Some? {
        KeptComplete(results, i);
      }
      if i in kept {
        var k :| 0 <= k < |kept| && kept[k] == i;
      }
    }
  }
}
