/**
 * Both versions of `create_multimodal_sequences`: walk the markdown over the
 * image markers, emitting the stripped non-empty text before each marker,
 * then the image for the marker's position in the image file list (when
 * there is such a file and it can be read), and finally the stripped text
 * after the last marker. A document without markers becomes one text
 * segment holding the whole markdown, unstripped.
 */
module Sequences {
  import opened Wrappers
  import opened Strings
  import opened Scanner

  /** An image file: its name and its base64 text, or `None` when reading it fails. */
  datatype ImageFile = ImageFile(name: string, data: Option<string>)

  /** One item of `multimodal_content`; `caption` is `None` when the item has no such key. */
  datatype Segment =
    | Text(content: string)
    | Image(content: string, imageName: string, caption: Option<string>)

  /** The record built for one document. */
  datatype Sequence = Sequence(pdfName: string, content: seq<Segment>, imageFiles: seq<ImageFile>)

  /** The data URI prefix put in front of the base64 text of an image. */
  const DataUriPrefix: string := "data:image/png;base64,"

  /** The image segment for `file` with `caption`, or nothing when the file cannot be read. */
  function ImageSegment(file: ImageFile, caption: string): (r: Option<Segment>)
    ensures r.Some? <==> file.data.Some?
    ensures r.Some? ==> r.value == Image(DataUriPrefix + file.data.value, file.name, Some(caption))
  {
    match file.data
    case None => None
    case Some(d) => Some(Image(DataUriPrefix + d, file.name, Some(caption)))
  }

  /** The text between two positions, stripped. */
  function Gap(md: string, a: nat, b: nat): string
  {
    Strip(Slice(md, a, b))
  }

  /** Where the text before marker `k` ends: the marker's start, or the end of the markdown after the last. */
  function GapEnd(md: string, spans: seq<Span>, k: nat): nat
    requires k <= |spans|
  {
    if k < |spans| then spans[k].start else |md|
  }

  /**
   * The stripped texts around the markers: gap `k` runs from the end of
   * marker `k - 1` (or the start) to the start of marker `k`, and the last
   * gap runs from the end of the last marker to the end of the markdown.
   */
  function Gaps(md: string, spans: seq<Span>): (g: seq<string>)
    ensures |g| == |spans| + 1
  {
    seq(|spans| + 1, k requires 0 <= k <= |spans| => Gap(md, Resume(spans, 0, k), GapEnd(md, spans, k)))
  }

  /** Gap `k` as the loop computes it: from where the scan resumes to the start of marker `k`. */
  lemma GapAt(md: string, spans: seq<Span>, k: nat, from: nat, to: nat)
    requires k <= |spans| && from == Resume(spans, 0, k) && to == GapEnd(md, spans, k)
    ensures Gaps(md, spans)[k] == Gap(md, from, to)
  {
  }

  /** A gap as a segment: nothing when it is empty. */
  function TextPiece(t: string): seq<Segment>
  {
    if t == "" then [] else [Text(t)]
  }

  /**
   * The content after the loop has handled the first `n` markers: each
   * marker `k` adds gap `k` and then `images[k]`, what the marker contributes.
   */
  function Woven(gaps: seq<string>, images: seq<Option<Segment>>, n: nat): seq<Segment>
    requires n <= |images| < |gaps|
  {
    if n == 0 then []
    else Woven(gaps, images, n - 1) + TextPiece(gaps[n - 1]) + Present(images[n - 1])
  }

  /** The whole interleaving: every marker, then the gap after the last one. */
  function Interleave(gaps: seq<string>, images: seq<Option<Segment>>): seq<Segment>
    requires |gaps| == |images| + 1
  {
    Woven(gaps, images, |images|) + TextPiece(gaps[|images|])
  }

  /** The texts of the text segments, in order. */
  function Texts(content: seq<Segment>): seq<string>
  {
    if content == [] then []
    else Texts(content[..|content| - 1]) + (if content[|content| - 1].Text? then [content[|content| - 1].content] else [])
  }

  /** The image segments, in order. */
  function Images(content: seq<Segment>): seq<Segment>
  {
    if content == [] then []
    else Images(content[..|content| - 1]) + (if content[|content| - 1].Image? then [content[|content| - 1]] else [])
  }

  lemma {:induction false} TextsAppend(a: seq<Segment>, b: seq<Segment>)
    ensures Texts(a + b) == Texts(a) + Texts(b)
    ensures Images(a + b) == Images(a) + Images(b)
  {
    if b == [] {
      assert a + b == a;
    } else {
      assert (a + b)[..|a + b| - 1] == a + b[..|b| - 1];
      TextsAppend(a, b[..|b| - 1]);
    }
  }

  lemma TextsOne(seg: Segment)
    ensures Texts([seg]) == if seg.Text? then [seg.content] else []
    ensures Images([seg]) == if seg.Image? then [seg] else []
  {
    assert [seg][..0] == [];
  }

  /** The non-empty strings among the first `n` gaps, in order. */
  function NonEmpty(gaps: seq<string>, n: nat): seq<string>
    requires n <= |gaps|
  {
    if n == 0 then [] else NonEmpty(gaps, n - 1) + (if gaps[n - 1] == "" then [] else [gaps[n - 1]])
  }

  /** The images that the first `n` markers contribute, in order. */
  function PresentImages(images: seq<Option<Segment>>, n: nat): seq<Segment>
    requires n <= |images|
  {
    if n == 0 then [] else PresentImages(images, n - 1) + Present(images[n - 1])
  }

  /** What every marker contributes is an image segment. */
  predicate AllImages(images: seq<Option<Segment>>) {
    forall k :: 0 <= k < |images| ==> images[k].Some? ==> images[k].value.Image?
  }

  /** One gap as segments: its text, and no image. */
  lemma PieceParts(t: string)
    ensures Texts(TextPiece(t)) == (if t == "" then [] else [t])
    ensures Images(TextPiece(t)) == []
  {
    if t != "" {
      TextsOne(Text(t));
    }
  }

  /** One marker's image as segments: no text, and the image. */
  lemma PresentParts(o: Option<Segment>)
    requires o.Some? ==> o.value.Image?
    ensures Texts(Present(o)) == []
    ensures Images(Present(o)) == Present(o)
  {
    if o.Some? {
      TextsOne(o.value);
    }
  }

  /** One more marker adds its gap's text. */
  lemma WovenStepTexts(gaps: seq<string>, images: seq<Option<Segment>>, n: nat)
    requires 0 < n <= |images| < |gaps| && AllImages(images)
    ensures Texts(Woven(gaps, images, n)) ==
      Texts(Woven(gaps, images, n - 1)) + (if gaps[n - 1] == "" then [] else [gaps[n - 1]])
  {
    var w := Woven(gaps, images, n - 1);
    var tp, pr := TextPiece(gaps[n - 1]), Present(images[n - 1]);
    TextsAppend(w + tp, pr);
    TextsAppend(w, tp);
    PieceParts(gaps[n - 1]);
    PresentParts(images[n - 1]);
    assert Texts(w + tp + pr) == Texts(w) + Texts(tp) + [];
  }

  /** One more marker adds its image. */
  lemma WovenStepImages(gaps: seq<string>, images: seq<Option<Segment>>, n: nat)
    requires 0 < n <= |images| < |gaps| && AllImages(images)
    ensures Images(Woven(gaps, images, n)) == Images(Woven(gaps, images, n - 1)) + Present(images[n - 1])
  {
    var w := Woven(gaps, images, n - 1);
    var tp, pr := TextPiece(gaps[n - 1]), Present(images[n - 1]);
    TextsAppend(w + tp, pr);
    TextsAppend(w, tp);
    PieceParts(gaps[n - 1]);
    PresentParts(images[n - 1]);
    assert Images(w + tp + pr) == Images(w) + [] + Images(pr);
  }

  lemma {:induction false} WovenParts(gaps: seq<string>, images: seq<Option<Segment>>, n: nat)
    requires n <= |images| < |gaps| && AllImages(images)
    ensures Texts(Woven(gaps, images, n)) == NonEmpty(gaps, n)
    ensures Images(Woven(gaps, images, n)) == PresentImages(images, n)
  {
    if n > 0 {
      WovenParts(gaps, images, n - 1);
      WovenStepTexts(gaps, images, n);
      WovenStepImages(gaps, images, n);
    }
  }

  /**
   * What an interleaving is made of: its text segments are the non-empty
   * gaps, its image segments are the markers' images, each in reading order.
   */
  lemma InterleaveParts(gaps: seq<string>, images: seq<Option<Segment>>)
    requires |gaps| == |images| + 1 && AllImages(images)
    ensures Texts(Interleave(gaps, images)) == NonEmpty(gaps, |gaps|)
    ensures Images(Interleave(gaps, images)) == PresentImages(images, |images|)
  {
    var w := Woven(gaps, images, |images|);
    var t := gaps[|images|];
    WovenParts(gaps, images, |images|);
    TextsAppend(w, TextPiece(t));
    PieceParts(t);
    assert Images(w) + [] == Images(w);
  }

  /** Each gap is stripped and, when there is a marker, shorter than the markdown, since it leaves that marker out. */
  lemma GapsShape(pat: Pattern, md: string, spans: seq<Span>)
    requires SpansMatch(pat, md, 0, spans) && spans != []
    ensures forall k :: 0 <= k < |Gaps(md, spans)| ==> IsStripped(Gaps(md, spans)[k]) && |Gaps(md, spans)[k]| < |md|
  {
    var g := Gaps(md, spans);
    forall k | 0 <= k < |g| ensures IsStripped(g[k]) && |g[k]| < |md| {
      var a, b := Resume(spans, 0, k), GapEnd(md, spans, k);
      assert g[k] == Strip(Slice(md, a, b));
      assert |Slice(md, a, b)| < |md| by {
        if k == 0 {
          assert b == spans[0].start < spans[0].end <= |md|;
        } else {
          assert a == spans[k - 1].end > 0;
        }
      }
    }
  }

  /** The text segments of the first `n` markers come from gaps that are all stripped and shorter than `bound`. */
  lemma {:induction false} WovenTextsShape(gaps: seq<string>, images: seq<Option<Segment>>, n: nat, bound: nat)
    requires n <= |images| < |gaps| && AllImages(images)
    requires forall k :: 0 <= k < |gaps| ==> IsStripped(gaps[k]) && |gaps[k]| < bound
    ensures forall seg :: seg in Woven(gaps, images, n) && seg.Text? ==>
      seg.content != "" && IsStripped(seg.content) && |seg.content| < bound
  {
    if n > 0 {
      WovenTextsShape(gaps, images, n - 1, bound);
    }
  }

  /** Every text segment of an interleaving is a non-empty gap, so it is stripped and shorter than `bound`. */
  lemma InterleaveTextsShape(gaps: seq<string>, images: seq<Option<Segment>>, bound: nat)
    requires |gaps| == |images| + 1 && AllImages(images)
    requires forall k :: 0 <= k < |gaps| ==> IsStripped(gaps[k]) && |gaps[k]| < bound
    ensures forall seg :: seg in Interleave(gaps, images) && seg.Text? ==>
      seg.content != "" && IsStripped(seg.content) && |seg.content| < bound
  {
    WovenTextsShape(gaps, images, |images|, bound);
  }

  /** Each marker contributes at most one image, and none past `bound`. */
  lemma {:induction false} PresentImagesCount(images: seq<Option<Segment>>, n: nat, bound: nat)
    requires n <= |images|
    requires forall k :: bound <= k < n ==> images[k].None?
    ensures |PresentImages(images, n)| <= if n < bound then n else bound
  {
    if n > 0 {
      PresentImagesCount(images, n - 1, bound);
    }
  }

  /** The loop keeps one position and it only moves forward, to the end of each marker. */
  lemma ResumeAdvances(pat: Pattern, s: string, spans: seq<Span>, k: nat)
    requires SpansMatch(pat, s, 0, spans) && Disjoint(spans) && k < |spans|
    ensures Resume(spans, 0, k) <= spans[k].start < spans[k].end == Resume(spans, 0, k + 1) <= |s|
  {
  }

  // ---------------------------------------------------------------- step2.py

  /** The record `load_processed_data` hands over for one PDF. */
  datatype ProcessedDoc = ProcessedDoc(pdfName: string, mdContent: string, captionedContent: string, imageFiles: seq<ImageFile>)

  /** The caption for marker `i`: the i-th caption match, or "" when there are fewer. */
  function NthCaption(captions: seq<string>, i: nat): string
  {
    if i < |captions| then captions[i] else ""
  }

  /** What each `![alt](path)` marker contributes in step2.py. */
  function MarkerImages(files: seq<ImageFile>, captions: seq<string>, count: nat): (r: seq<Option<Segment>>)
    ensures |r| == count
    ensures forall i :: 0 <= i < count ==> r[i] == if i < |files| then ImageSegment(files[i], NthCaption(captions, i)) else None
  {
    seq(count, i requires 0 <= i < count => if i < |files| then ImageSegment(files[i], NthCaption(captions, i)) else None)
  }

  /** The `multimodal_content` of one document in step2.py. */
  function MarkdownContent(doc: ProcessedDoc): seq<Segment>
  {
    var md := doc.mdContent;
    var spans := FindAll(ImageRef, md, 0);
    if spans == [] then [Text(md)]
    else Interleave(Gaps(md, spans), MarkerImages(doc.imageFiles, CaptionTexts(doc.captionedContent), |spans|))
  }

  /** A document with no image reference anywhere is one text segment holding the whole markdown. */
  lemma MarkdownNoMarkers(doc: ProcessedDoc)
    requires NoMatchIn(ImageRef, doc.mdContent, 0, |doc.mdContent|)
    ensures MarkdownContent(doc) == [Text(doc.mdContent)]
  {
    FindAllEmpty(ImageRef, doc.mdContent, 0);
  }

  /**
   * A document with an image reference has, as its text segments, the
   * non-empty stripped gaps around its references in reading order; each is
   * shorter than the markdown, so the whole markdown is never one of them.
   */
  lemma MarkdownTexts(doc: ProcessedDoc)
    requires !NoMatchIn(ImageRef, doc.mdContent, 0, |doc.mdContent|)
    ensures var md := doc.mdContent;
      var gaps := Gaps(md, FindAll(ImageRef, md, 0));
      && Texts(MarkdownContent(doc)) == NonEmpty(gaps, |gaps|)
      && forall seg :: seg in MarkdownContent(doc) && seg.Text? ==>
           seg.content != "" && IsStripped(seg.content) && |seg.content| < |md|
  {
    var md := doc.mdContent;
    var spans := FindAll(ImageRef, md, 0);
    FindAllEmpty(ImageRef, md, 0);
    FindAllMatch(ImageRef, md, 0);
    var images := MarkerImages(doc.imageFiles, CaptionTexts(doc.captionedContent), |spans|);
    InterleaveParts(Gaps(md, spans), images);
    GapsShape(ImageRef, md, spans);
    InterleaveTextsShape(Gaps(md, spans), images, |md|);
  }

  /**
   * The images of a step2 document, in order, are what the markers
   * contribute: marker `i` gives the image of file `i` with caption match
   * `i` (or ""), when there is a file `i` and it can be read. So there are no
   * more images than markers or files.
   */
  lemma MarkdownImages(doc: ProcessedDoc)
    ensures var spans := FindAll(ImageRef, doc.mdContent, 0);
      var imgs := Images(MarkdownContent(doc));
      && imgs == PresentImages(MarkerImages(doc.imageFiles, CaptionTexts(doc.captionedContent), |spans|), |spans|)
      && |imgs| <= |spans| && |imgs| <= |doc.imageFiles|
  {
    var md := doc.mdContent;
    var spans := FindAll(ImageRef, md, 0);
    var images := MarkerImages(doc.imageFiles, CaptionTexts(doc.captionedContent), |spans|);
    if spans != [] {
      InterleaveParts(Gaps(md, spans), images);
      PresentImagesCount(images, |spans|, |doc.imageFiles|);
      PresentImagesCount(images, |spans|, |spans|);
    } else {
      TextsOne(Text(md));
    }
  }

  /** `md[a:b].strip()`: the text between two positions, without its surrounding whitespace. */
  method TextBetween(md: string, a: nat, b: nat) returns (t: string)
    ensures t == Gap(md, a, b)
    ensures IsStripped(t)
  {
    t := Strip(Slice(md, a, b));
  }

  /** The `if text: content.append(...)` step: a text segment only for a non-empty text. */
  method AppendText(content: seq<Segment>, text: string) returns (r: seq<Segment>)
    ensures r == content + TextPiece(text)
    ensures text == "" ==> r == content
  {
    r := content;
    if text != "" {
      r := r + [Text(text)];
    }
  }

  /**
   * The `try` block both loops run for an image file: a file that can be read
   * adds one image segment with its data URI, name and caption; a read
   * failure adds nothing.
   */
  method AppendImage(content: seq<Segment>, file: ImageFile, caption: string) returns (r: seq<Segment>)
    ensures r == content + Present(ImageSegment(file, caption))
    ensures file.data.None? ==> r == content
  {
    r := content;
    if file.data.Some? {
      r := r + [Image(DataUriPrefix + file.data.value, file.name, Some(caption))];
    }
  }

  /**
   * The marker loop of `create_multimodal_sequences` in step2.py: the stripped
   * text before each marker when it is not empty, then the image of file `i`
   * with caption match `i` (or "") when file `i` exists and can be read, and
   * finally the stripped text after the last marker when it is not empty.
   */
  method WeaveMarkers(md: string, matches: seq<Span>, files: seq<ImageFile>, captionMatches: seq<string>)
    returns (content: seq<Segment>)
    ensures content == Interleave(Gaps(md, matches), MarkerImages(files, captionMatches, |matches|))
  {
    ghost var gaps := Gaps(md, matches);
    ghost var images := MarkerImages(files, captionMatches, |matches|);
    var currentPos := 0;
    content := [];
    for i := 0 to |matches|
      invariant currentPos == Resume(matches, 0, i)
      invariant content == Woven(gaps, images, i)
    {
      var textBefore := TextBetween(md, currentPos, matches[i].start);
      GapAt(md, matches, i, currentPos, matches[i].start);
      content := AppendText(content, textBefore);
      ghost var withText := content;
      ghost var image := images[i];
      if i < |files| {
        var caption := "";
        if i < |captionMatches| {
          caption := captionMatches[i];
        }
        assert image == ImageSegment(files[i], caption);
        content := AppendImage(content, files[i], caption);
      } else {
        assert image == None;
      }
      assert content == withText + Present(image);
      currentPos := matches[i].end;
    }
    var textAfter := TextBetween(md, currentPos, |md|);
    GapAt(md, matches, |matches|, currentPos, |md|);
    content := AppendText(content, textAfter);
  }

  /** The `multimodal_content` step2.py builds for one document: the whole markdown when it has no marker. */
  method BuildMarkdownContent(doc: ProcessedDoc) returns (content: seq<Segment>)
    ensures content == MarkdownContent(doc)
  {
    var matches := FindAll(ImageRef, doc.mdContent, 0);
    if |matches| > 0 {
      var captionMatches := CaptionTexts(doc.captionedContent);
      content := WeaveMarkers(doc.mdContent, matches, doc.imageFiles, captionMatches);
    } else {
      content := [Text(doc.mdContent)];
    }
  }

  /** The record step2.py builds for one document. */
  function MarkdownSequence(doc: ProcessedDoc): Sequence
  {
    Sequence(doc.pdfName, MarkdownContent(doc), doc.imageFiles)
  }

  /** `create_multimodal_sequences` in step2.py: one record per document, in order. */
  method CreateSequences(docs: seq<ProcessedDoc>) returns (sequences: seq<Sequence>)
    ensures |sequences| == |docs|
    ensures forall i :: 0 <= i < |docs| ==> sequences[i] == MarkdownSequence(docs[i])
  {
    sequences := [];
    for i := 0 to |docs|
      invariant |sequences| == i
      invariant forall j :: 0 <= j < i ==> sequences[j] == MarkdownSequence(docs[j])
    {
      var sequence := BuildSequence(docs[i]);
      sequences := sequences + [sequence];
    }
  }

  /** The record for one document: its name, its segments and its image files. */
  method BuildSequence(doc: ProcessedDoc) returns (sequence: Sequence)
    ensures sequence == MarkdownSequence(doc)
  {
    var content := BuildMarkdownContent(doc);
    sequence := Sequence(doc.pdfName, content, doc.imageFiles);
  }

  // ---------------------------------------------------------------- v_embed.py

  /** One entry of the captions list: the image file name it is for and its caption, if it has one. */
  datatype CaptionEntry = CaptionEntry(image: string, caption: Option<string>)

  /** The record `load_parsed_data` hands over for one PDF. */
  datatype ParsedDoc = ParsedDoc(pdfName: string, mdContent: string, captions: seq<CaptionEntry>, imageFiles: seq<ImageFile>)

  /** `{caption['image']: caption for caption in captions}`: a later entry for a name replaces an earlier one. */
  function CaptionMap(entries: seq<CaptionEntry>): map<string, CaptionEntry>
  {
    if entries == [] then map[]
    else CaptionMap(entries[..|entries| - 1])[entries[|entries| - 1].image := entries[|entries| - 1]]
  }

  /**
   * The map holds exactly the names some entry is for, and for each the last
   * entry with that name.
   */
  lemma {:induction false} CaptionMapLastWins(entries: seq<CaptionEntry>, name: string)
    ensures name in CaptionMap(entries) <==> exists i :: 0 <= i < |entries| && entries[i].image == name
    ensures name in CaptionMap(entries) ==>
      exists i :: 0 <= i < |entries| && entries[i] == CaptionMap(entries)[name]
        && entries[i].image == name && forall j :: i < j < |entries| ==> entries[j].image != name
  {
    if entries != [] {
      var init := entries[..|entries| - 1];
      var last := entries[|entries| - 1];
      CaptionMapLastWins(init, name);
      if last.image != name {
        if name in CaptionMap(init) {
          var i :| 0 <= i < |init| && init[i] == CaptionMap(init)[name]
            && init[i].image == name && forall j :: i < j < |init| ==> init[j].image != name;
          assert entries[i] == init[i];
        }
        forall i | 0 <= i < |entries| - 1 ensures entries[i] == init[i] {
        }
      } else {
        assert entries[|entries| - 1] == CaptionMap(entries)[name];
      }
    }
  }

  /** `caption_map.get(image_name, {}).get('caption', '')`. */
  function CaptionFor(m: map<string, CaptionEntry>, name: string): (c: string)
    ensures name !in m ==> c == ""
  {
    if name in m && m[name].caption.Some? then m[name].caption.value else ""
  }

  /** What each `<!-- image -->` marker contributes in v_embed.py. */
  function PlaceholderImages(files: seq<ImageFile>, m: map<string, CaptionEntry>, count: nat): (r: seq<Option<Segment>>)
    ensures |r| == count
    ensures forall i :: 0 <= i < count ==> r[i] == if i < |files| then ImageSegment(files[i], CaptionFor(m, files[i].name)) else None
  {
    seq(count, i requires 0 <= i < count => if i < |files| then ImageSegment(files[i], CaptionFor(m, files[i].name)) else None)
  }

  /** The `multimodal_content` of one document in v_embed.py. */
  function ParsedContent(doc: ParsedDoc): seq<Segment>
  {
    var md := doc.mdContent;
    var spans := FindAll(Placeholder, md, 0);
    if spans == [] then [Text(md)]
    else Interleave(Gaps(md, spans), PlaceholderImages(doc.imageFiles, CaptionMap(doc.captions), |spans|))
  }

  /** A document with no placeholder is one text segment holding the whole markdown. */
  lemma ParsedNoMarkers(doc: ParsedDoc)
    requires NoMatchIn(Placeholder, doc.mdContent, 0, |doc.mdContent|)
    ensures ParsedContent(doc) == [Text(doc.mdContent)]
  {
    FindAllEmpty(Placeholder, doc.mdContent, 0);
  }

  /** With a placeholder, the text segments are the non-empty stripped gaps around the placeholders, in order. */
  lemma ParsedTexts(doc: ParsedDoc)
    requires !NoMatchIn(Placeholder, doc.mdContent, 0, |doc.mdContent|)
    ensures var md := doc.mdContent;
      var gaps := Gaps(md, FindAll(Placeholder, md, 0));
      && Texts(ParsedContent(doc)) == NonEmpty(gaps, |gaps|)
      && forall seg :: seg in ParsedContent(doc) && seg.Text? ==>
           seg.content != "" && IsStripped(seg.content) && |seg.content| < |md|
  {
    var md := doc.mdContent;
    var spans := FindAll(Placeholder, md, 0);
    FindAllEmpty(Placeholder, md, 0);
    FindAllMatch(Placeholder, md, 0);
    var images := PlaceholderImages(doc.imageFiles, CaptionMap(doc.captions), |spans|);
    InterleaveParts(Gaps(md, spans), images);
    GapsShape(Placeholder, md, spans);
    InterleaveTextsShape(Gaps(md, spans), images, |md|);
  }

  /**
   * The images of a v_embed document, in order, are what the placeholders
   * contribute: placeholder `i` gives the image of file `i` with the caption
   * the map holds for that file's name (or ""), when there is a file `i`
   * and it can be read. So there are no more images than placeholders or files.
   */
  lemma ParsedImages(doc: ParsedDoc)
    ensures var spans := FindAll(Placeholder, doc.mdContent, 0);
      var imgs := Images(ParsedContent(doc));
      && imgs == PresentImages(PlaceholderImages(doc.imageFiles, CaptionMap(doc.captions), |spans|), |spans|)
      && |imgs| <= |spans| && |imgs| <= |doc.imageFiles|
  {
    var md := doc.mdContent;
    var spans := FindAll(Placeholder, md, 0);
    var images := PlaceholderImages(doc.imageFiles, CaptionMap(doc.captions), |spans|);
    if spans != [] {
      InterleaveParts(Gaps(md, spans), images);
      PresentImagesCount(images, |spans|, |doc.imageFiles|);
      PresentImagesCount(images, |spans|, |spans|);
    } else {
      TextsOne(Text(md));
    }
  }

  /**
   * What placeholder `i` adds in v_embed.py: when there is a file `i`, it is
   * read and captioned with what the caption map holds for its name.
   */
  method PlaceholderImage(content: seq<Segment>, files: seq<ImageFile>, captionMap: map<string, CaptionEntry>, i: nat)
    returns (r: seq<Segment>)
    ensures r == content + Present(if i < |files| then ImageSegment(files[i], CaptionFor(captionMap, files[i].name)) else None)
  {
    r := content;
    if i < |files| {
      var caption := CaptionFor(captionMap, files[i].name);
      r := AppendImage(r, files[i], caption);
    }
  }

  /**
   * The placeholder loop of `create_multimodal_sequences` in v_embed.py: like
   * the marker loop, but the caption of image `i` is the one the caption map
   * holds for that file's name (or "").
   */
  method WeavePlaceholders(md: string, imageRefs: seq<Span>, files: seq<ImageFile>, captionMap: map<string, CaptionEntry>)
    returns (content: seq<Segment>)
    ensures content == Interleave(Gaps(md, imageRefs), PlaceholderImages(files, captionMap, |imageRefs|))
  {
    ghost var gaps := Gaps(md, imageRefs);
    ghost var images := PlaceholderImages(files, captionMap, |imageRefs|);
    var currentPos := 0;
    content := [];
    for i := 0 to |imageRefs|
      invariant currentPos == Resume(imageRefs, 0, i)
      invariant content == Woven(gaps, images, i)
    {
      var textBefore := TextBetween(md, currentPos, imageRefs[i].start);
      GapAt(md, imageRefs, i, currentPos, imageRefs[i].start);
      content := AppendText(content, textBefore);
      ghost var withText := content;
      content := PlaceholderImage(content, files, captionMap, i);
      assert content == withText + Present(images[i]);
      currentPos := imageRefs[i].end;
    }
    var textAfter := TextBetween(md, currentPos, |md|);
    GapAt(md, imageRefs, |imageRefs|, currentPos, |md|);
    content := AppendText(content, textAfter);
  }

  /** The `multimodal_content` v_embed.py builds for one document: the whole markdown when it has no placeholder. */
  method BuildParsedContent(doc: ParsedDoc) returns (content: seq<Segment>)
    ensures content == ParsedContent(doc)
  {
    var captionMap := CaptionMap(doc.captions);
    var imageRefs := FindAll(Placeholder, doc.mdContent, 0);
    if |imageRefs| > 0 {
      content := WeavePlaceholders(doc.mdContent, imageRefs, doc.imageFiles, captionMap);
    } else {
      content := [Text(doc.mdContent)];
    }
  }

  /** The record v_embed.py builds for one document. */
  function ParsedSequence(doc: ParsedDoc): Sequence
  {
    Sequence(doc.pdfName, ParsedContent(doc), doc.imageFiles)
  }

  /** `create_multimodal_sequences` in v_embed.py: one record per document, in order. */
  method CreateParsedSequences(docs: seq<ParsedDoc>) returns (sequences: seq<Sequence>)
    ensures |sequences| == |docs|
    ensures forall i :: 0 <= i < |docs| ==> sequences[i] == ParsedSequence(docs[i])
  {
    sequences := [];
    for i := 0 to |docs|
      invariant |sequences| == i
      invariant forall j :: 0 <= j < i ==> sequences[j] == ParsedSequence(docs[j])
    {
      var sequence := BuildParsedSequence(docs[i]);
      sequences := sequences + [sequence];
    }
  }

  /** The record for one document: its name, its segments and its image files. */
  method BuildParsedSequence(doc: ParsedDoc) returns (sequence: Sequence)
    ensures sequence == ParsedSequence(doc)
  {
    var content := BuildParsedContent(doc);
    sequence := Sequence(doc.pdfName, content, doc.imageFiles);
  }
}
