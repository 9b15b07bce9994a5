/**
 * `save_to_qdrant` and `search_similar_documents` in both versions: one
 * point per embedding, in order, in a collection created afresh with a
 * fixed vector dimension, and a query embedded the way the version embeds
 * documents. The collection's store and its cosine ranking belong to the
 * vector database; the store is the `Collection` class here and the ranking
 * is a parameter.
 */
module Index {
  import opened Wrappers
  import opened Strings
  import opened Normalize
  import opened Sequences
  import opened Embedding

  /** An image's entry in a step2.py payload. */
  datatype ImageInfo = ImageInfo(imageName: string, caption: string, imagePath: string)

  /** The payload of a point: the step2.py form, with image entries, or the v_embed.py form. */
  datatype Payload =
    | DocPayload(pdfName: string, text: string, contentCount: nat, imageCount: nat, images: seq<ImageInfo>)
    | ParsedPayload(pdfName: string, text: string, contentCount: nat)

  datatype Point = Point(vector: Vector, payload: Payload)

  /** The dimension step2.py uses when there is no embedding to take it from. */
  const DefaultVectorSize: nat := 1536

  /** The dimension of the v_embed.py collection. */
  const ParsedVectorSize: nat := 1024

  /** How much of an image's data URI a step2.py payload keeps. */
  const PathPreviewLength: nat := 100

  /** Every vector of `batch` has dimension `dimension`. */
  predicate Fits(batch: seq<Point>, dimension: nat) {
    forall k :: 0 <= k < |batch| ==> |batch[k].vector| == dimension
  }

  /** A vector collection: its dimension, fixed when it is created, and its points in upload order. */
  class Collection {
    var dimension: nat
    var points: seq<Point>

    /** `create_collection` after `delete_collection`: an empty collection of the given dimension. */
    constructor (dimension: nat)
      ensures this.dimension == dimension && points == []
    {
      this.dimension := dimension;
      points := [];
    }

    /**
     * `upsert`: a batch whose vectors all have the collection's dimension is
     * appended; any other batch is refused and nothing is stored.
     */
    method Upsert(batch: seq<Point>) returns (ok: bool)
      modifies this
      ensures dimension == old(dimension)
      ensures ok <==> Fits(batch, dimension)
      ensures points == if ok then old(points) + batch else old(points)
    {
      ok := Fits(batch, dimension);
      if ok {
        points := points + batch;
      }
    }
  }

  // ---------------------------------------------------------------------
  // Points (step2.py)
  // ---------------------------------------------------------------------

  /** `item.get('caption', '')` for an image segment. */
  function CaptionOf(seg: Segment): string
    requires seg.Image?
  {
    if seg.caption.Some? then seg.caption.value else ""
  }

  /** What a segment adds to the payload text: its text, or `[이미지: ` plus its caption plus `]`. */
  function DocPiece(seg: Segment): string
  {
    match seg
    case Text(content) => content
    case Image(_, _, _) => "[이미지: " + CaptionOf(seg) + "]"
  }

  /** The payload entry of an image segment. */
  function Info(seg: Segment): (r: ImageInfo)
    requires seg.Image?
    ensures r.imageName == seg.imageName && r.caption == CaptionOf(seg)
    ensures |r.imagePath| <= PathPreviewLength + 3
    ensures |seg.content| <= PathPreviewLength ==> r.imagePath == seg.content
    ensures |seg.content| > PathPreviewLength ==> r.imagePath == seg.content[..PathPreviewLength] + "..."
  {
    var path := Preview(seg.content, PathPreviewLength);
    assert |seg.content| > PathPreviewLength ==> path == path[..PathPreviewLength] + path[PathPreviewLength..];
    ImageInfo(seg.imageName, CaptionOf(seg), path)
  }

  /** The payload text pieces: one per segment, in order. */
  function DocPieces(content: seq<Segment>): (r: seq<string>)
    ensures |r| == |content|
  {
    if content == [] then [] else DocPieces(content[..|content| - 1]) + [DocPiece(content[|content| - 1])]
  }

  /** The `image_info` list: one entry per image segment, in order. */
  function ImageInfos(content: seq<Segment>): seq<ImageInfo>
  {
    if content == [] then []
    else ImageInfos(content[..|content| - 1]) + (if content[|content| - 1].Image? then [Info(content[|content| - 1])] else [])
  }

  /** The payload of one step2.py embedding. */
  function DocPayloadOf(e: DocEmbedding): Payload
  {
    var infos := ImageInfos(e.content);
    DocPayload(e.pdfName, Join(" ", DocPieces(e.content)), |e.content|, |infos|, infos)
  }

  function DocPoint(e: DocEmbedding): Point
  {
    Point(e.embedding, DocPayloadOf(e))
  }

  /** The step2.py points: one per embedding, in order. */
  function DocPoints(embeddings: seq<DocEmbedding>): (r: seq<Point>)
    ensures |r| == |embeddings|
    ensures forall i :: 0 <= i < |embeddings| ==> r[i] == DocPoint(embeddings[i])
  {
    seq(|embeddings|, i requires 0 <= i < |embeddings| => DocPoint(embeddings[i]))
  }

  /**
   * There is one image entry per image segment: entry `k` describes image
   * segment `k`, with its name, its caption (or "") and a preview of its
   * data URI of at most 103 characters.
   */
  lemma {:induction false} ImageInfosSpec(content: seq<Segment>)
    ensures |ImageInfos(content)| == |Images(content)|
    ensures forall k :: 0 <= k < |Images(content)| ==> Images(content)[k].Image? && ImageInfos(content)[k] == Info(Images(content)[k])
  {
    if content != [] {
      var init := content[..|content| - 1];
      ImageInfosSpec(init);
    }
  }

  /** The image count of a payload is the number of image segments; the content count is the number of segments. */
  lemma DocPayloadCounts(e: DocEmbedding)
    ensures DocPayloadOf(e).imageCount == |Images(e.content)|
    ensures DocPayloadOf(e).contentCount == |e.content|
    ensures forall k :: 0 <= k < |DocPayloadOf(e).images| ==> |DocPayloadOf(e).images[k].imagePath| <= PathPreviewLength + 3
  {
    ImageInfosSpec(e.content);
  }

  /** Piece `i` of the payload text is segment `i`'s text, or its caption in `[이미지: …]`. */
  lemma {:induction false} DocPiecesAt(content: seq<Segment>)
    ensures forall i :: 0 <= i < |content| ==>
      DocPieces(content)[i] == if content[i].Text? then content[i].content else "[이미지: " + CaptionOf(content[i]) + "]"
  {
    if content != [] {
      var init := content[..|content| - 1];
      DocPiecesAt(init);
      assert forall i :: 0 <= i < |init| ==> DocPieces(content)[i] == DocPieces(init)[i] && content[i] == init[i];
    }
  }

  /** The segment loop of step2.py's point building: the text pieces and the image entries. */
  method DescribeContent(content: seq<Segment>) returns (textContent: seq<string>, imageInfo: seq<ImageInfo>)
    ensures textContent == DocPieces(content)
    ensures imageInfo == ImageInfos(content)
  {
    textContent, imageInfo := [], [];
    for i := 0 to |content|
      invariant textContent == DocPieces(content[..i])
      invariant imageInfo == ImageInfos(content[..i])
    {
      assert content[..i + 1][..i] == content[..i];
      var item := content[i];
      if item.Text? {
        textContent := textContent + [item.content];
      } else {
        var caption := if item.caption.Some? then item.caption.value else "";
        var imagePath := if |item.content| > PathPreviewLength then item.content[..PathPreviewLength] + "..." else item.content;
        imageInfo := imageInfo + [ImageInfo(item.imageName, caption, imagePath)];
        textContent := textContent + ["[이미지: " + caption + "]"];
      }
    }
    assert content[..|content|] == content;
  }

  /** The point loop of step2.py's `save_to_qdrant`. */
  method BuildDocPoints(embeddings: seq<DocEmbedding>) returns (points: seq<Point>)
    ensures points == DocPoints(embeddings)
  {
    points := [];
    for i := 0 to |embeddings|
      invariant |points| == i
      invariant forall j :: 0 <= j < i ==> points[j] == DocPoint(embeddings[j])
    {
      var embData := embeddings[i];
      var textContent, imageInfo := DescribeContent(embData.content);
      var combinedText := Join(" ", textContent);
      var payload := DocPayload(embData.pdfName, combinedText, |embData.content|, |imageInfo|, imageInfo);
      points := points + [Point(embData.embedding, payload)];
    }
  }

  /** The dimension of step2.py's collection: the first embedding's length, or 1536 when there is none. */
  function VectorSize(embeddings: seq<DocEmbedding>): nat
  {
    if embeddings != [] then |embeddings[0].embedding| else DefaultVectorSize
  }

  /**
   * step2.py's `save_to_qdrant`: a new collection with the dimension of the
   * first embedding (1536 without embeddings) holding one point per
   * embedding, in order, when every embedding has that dimension; otherwise
   * the upload is refused and the collection stays empty.
   */
  method SaveToIndex(embeddings: seq<DocEmbedding>) returns (collection: Collection, ok: bool)
    ensures fresh(collection)
    ensures collection.dimension == VectorSize(embeddings)
    ensures ok <==> Fits(DocPoints(embeddings), VectorSize(embeddings))
    ensures collection.points == if ok then DocPoints(embeddings) else []
  {
    var vectorSize := if embeddings != [] then |embeddings[0].embedding| else DefaultVectorSize;
    collection := new Collection(vectorSize);
    var points := BuildDocPoints(embeddings);
    ok := collection.Upsert(points);
  }

  /** A collection built from embeddings that all come from one model's dimension takes them all. */
  lemma SaveAcceptsUniform(embeddings: seq<DocEmbedding>)
    requires forall i :: 0 <= i < |embeddings| ==> |embeddings[i].embedding| == VectorSize(embeddings)
    ensures Fits(DocPoints(embeddings), VectorSize(embeddings))
  {
  }

  // ---------------------------------------------------------------------
  // Points (v_embed.py)
  // ---------------------------------------------------------------------

  /** The placeholder text v_embed.py uses for an image item without a caption. */
  const NoCaption: string := "[IMAGE]"

  /** What a segment adds to the v_embed.py payload text: its text, or its caption (`[IMAGE]` without one). */
  function ParsedPiece(seg: Segment): string
  {
    match seg
    case Text(content) => content
    case Image(_, _, caption) => if caption.Some? then caption.value else NoCaption
  }

  function ParsedPieces(content: seq<Segment>): (r: seq<string>)
    ensures |r| == |content|
  {
    if content == [] then [] else ParsedPieces(content[..|content| - 1]) + [ParsedPiece(content[|content| - 1])]
  }

  function ParsedPoint(e: ParsedEmbedding): Point
  {
    Point(e.embedding, ParsedPayload(e.pdfName, Join(" ", ParsedPieces(e.content)), |e.content|))
  }

  function ParsedPoints(embeddings: seq<ParsedEmbedding>): (r: seq<Point>)
    ensures |r| == |embeddings|
    ensures forall i :: 0 <= i < |embeddings| ==> r[i] == ParsedPoint(embeddings[i])
  {
    seq(|embeddings|, i requires 0 <= i < |embeddings| => ParsedPoint(embeddings[i]))
  }

  /**
   * Piece `i` of a v_embed.py payload text is segment `i`'s text, or its
   * caption; an image the sequence builder made always has a caption, so
   * `[IMAGE]` appears only for an image segment without one.
   */
  lemma {:induction false} ParsedPiecesAt(content: seq<Segment>)
    ensures forall i :: 0 <= i < |content| ==>
      && (content[i].Text? ==> ParsedPieces(content)[i] == content[i].content)
      && (content[i].Image? && content[i].caption.Some? ==> ParsedPieces(content)[i] == content[i].caption.value)
      && (content[i].Image? && content[i].caption.None? ==> ParsedPieces(content)[i] == NoCaption)
  {
    if content != [] {
      var init := content[..|content| - 1];
      ParsedPiecesAt(init);
      assert forall i :: 0 <= i < |init| ==> ParsedPieces(content)[i] == ParsedPieces(init)[i] && content[i] == init[i];
    }
  }

  /** The segment loop of v_embed.py's point building. */
  method CollectParsedPieces(content: seq<Segment>) returns (textContent: seq<string>)
    ensures textContent == ParsedPieces(content)
  {
    textContent := [];
    for i := 0 to |content|
      invariant textContent == ParsedPieces(content[..i])
    {
      assert content[..i + 1][..i] == content[..i];
      var item := content[i];
      if item.Text? {
        textContent := textContent + [item.content];
      } else if item.caption.Some? {
        textContent := textContent + [item.caption.value];
      } else {
        textContent := textContent + [NoCaption];
      }
    }
    assert content[..|content|] == content;
  }

  /** The point loop of v_embed.py's `save_to_qdrant`. */
  method BuildParsedPoints(embeddings: seq<ParsedEmbedding>) returns (points: seq<Point>)
    ensures points == ParsedPoints(embeddings)
  {
    points := [];
    for i := 0 to |embeddings|
      invariant |points| == i
      invariant forall j :: 0 <= j < i ==> points[j] == ParsedPoint(embeddings[j])
    {
      var embData := embeddings[i];
      var textContent := CollectParsedPieces(embData.content);
      var combinedText := Join(" ", textContent);
      points := points + [Point(embData.embedding, ParsedPayload(embData.pdfName, combinedText, |embData.content|))];
    }
  }

  /**
   * v_embed.py's `save_to_qdrant`: a new 1024-dimensional collection holding
   * one point per embedding, in order, when every vector has 1024
   * components; otherwise the upload is refused.
   */
  method SaveParsedToIndex(embeddings: seq<ParsedEmbedding>) returns (collection: Collection, ok: bool)
    ensures fresh(collection)
    ensures collection.dimension == ParsedVectorSize
    ensures ok <==> Fits(ParsedPoints(embeddings), ParsedVectorSize)
    ensures collection.points == if ok then ParsedPoints(embeddings) else []
  {
    collection := new Collection(ParsedVectorSize);
    var points := BuildParsedPoints(embeddings);
    ok := collection.Upsert(points);
  }

  // ---------------------------------------------------------------------
  // Search
  // ---------------------------------------------------------------------

  /** The database's search: the best points of the collection for a query vector, at most `limit`. */
  type Ranker = (seq<Point>, Vector, nat) -> seq<Point>

  /** The query vector of step2.py: the normalised query embedded by the first model that succeeds. */
  function QueryVector(embed: Embedder, queryText: string): Option<Embedded>
  {
    FirstSuccess(embed, Models, Preprocess(queryText))
  }

  /**
   * step2.py's `search_similar_documents`: the ranking for the query vector,
   * or no hits when every model fails on the normalised query.
   */
  method SearchDocuments(collection: Collection, embed: Embedder, rank: Ranker, queryText: string, limit: nat)
    returns (hits: seq<Point>)
    ensures QueryVector(embed, queryText).Some? ==> hits == rank(collection.points, QueryVector(embed, queryText).value.vector, limit)
    ensures (forall k :: 0 <= k < |Models| ==> embed(Models[k], Preprocess(queryText)).None?) <==> QueryVector(embed, queryText).None?
    ensures QueryVector(embed, queryText).None? ==> hits == []
  {
    var processedQuery := Preprocess(queryText);
    FirstSuccessNone(embed, Models, processedQuery);
    var queryVector := TryModels(embed, Models, processedQuery);
    if queryVector.None? {
      return [];
    }
    hits := rank(collection.points, queryVector.value.vector, limit);
  }

  /**
   * The query input of v_embed.py: the text alone, or the text and the
   * image when an image is given and is not empty.
   */
  function QueryInput(queryText: string, queryImage: Option<string>): (r: seq<Input>)
    ensures 1 <= |r| <= 2 && r[0] == InputText(queryText)
    ensures |r| == 2 <==> queryImage.Some? && queryImage.value != ""
    ensures |r| == 2 ==> r[1] == InputImage(queryImage.value)
  {
    if queryImage.Some? && queryImage.value != "" then [InputText(queryText), InputImage(queryImage.value)]
    else [InputText(queryText)]
  }

  /**
   * v_embed.py's `search_similar_documents`: the ranking for the vector the
   * multimodal model gives the query input, or no hits when that call fails.
   */
  method SearchParsed(collection: Collection, embed: MultimodalEmbedder, rank: Ranker, queryText: string, queryImage: Option<string>, limit: nat)
    returns (hits: seq<Point>)
    ensures var answer := embed(MultimodalModel, QueryInput(queryText, queryImage), "query");
      hits == if answer.Some? then rank(collection.points, answer.value, limit) else []
  {
    var result;
    if queryImage.Some? && queryImage.value != "" {
      result := embed(MultimodalModel, [InputText(queryText), InputImage(queryImage.value)], "query");
    } else {
      result := embed(MultimodalModel, [InputText(queryText)], "query");
    }
    if result.None? {
      return [];
    }
    hits := rank(collection.points, result.value, limit);
  }
}
