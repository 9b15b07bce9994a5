# A verified model of a Korean multimodal RAG pipeline

This project models the data path of a small retrieval-augmented question
answering system for Korean PDF documents. It covers three scripts.

- `step2.py`:
  - normalises Korean text and cuts it into sentence-aligned chunks;
  - interleaves each document's markdown with its images;
  - embeds the text with an ordered model fallback, then averages the chunk vectors;
  - builds the vector-index points and searches them.
- `v_embed.py` does the same with docling `<!-- image -->` placeholders. Its
  captions come from a file-name-keyed map, and a multimodal model embeds each
  document in one call.
- `step3.py` runs a two-node retrieve-then-generate workflow inside an
  interactive question loop.

The embedding services, the vector database's ranking, the retriever and the
language model are function-typed parameters (oracles). A failing call is an
oracle answer of `None`.

Modules, one per file:

| module | models |
|---|---|
| `Wrappers` | `Option`, and the values of a list of options that are present (what a loop that appends only successes collects) |
| `Strings` | `strip`, `lower`, `join`, slicing, the truncated preview |
| `Normalize` | `preprocess_korean_text` |
| `Chunking` | `chunk_text` |
| `Scanner` | the three regular expressions, as hand-written matchers, and `finditer`/`findall` over them |
| `Sequences` | both `create_multimodal_sequences` |
| `Embedding` | both `create_voyage_multimodal_embeddings` |
| `Index` | both `save_to_qdrant` and both `search_similar_documents`; the collection is a class whose points the upload appends to |
| `Qa` | `retrieve_documents`, `generate_answer`, the graph edges, `print_search_results` and `interactive_qa` |

Each loop of the source is a method with a `while` loop. It is proved equal to
a specification function, and the properties the code promises are lemmas
about that function.

The model follows the code as written, including these consequences of it:
- `chunk_text` removes every sentence terminator (`.!?。！？`) and puts `". "`
  after each kept sentence. Characters are lost, and every chunk ends in `.`.
  `Chunking.ChunksSpec` states exactly what survives and that every chunk
  ends at the end of a kept sentence.
- A chunk can exceed `max_length`, but only when it is a single sentence.
- The end of input is not an exit of the question loop (see "## Findings").

## Model

| member | source | states |
|---|---|---|
| Strings.Strip | step2.py:131 | the result is a slice of the input that starts after the leading whitespace and neither begins nor ends with whitespace |
| Strings.StripRemovesWhitespace | step2.py:131 | only whitespace is removed, on both sides |
| Strings.StripStripped | step2.py:131 | stripping a stripped string changes nothing |
| Strings.StripAllWhitespace | step3.py:241 | a line made only of whitespace strips to the empty string |
| Strings.LowerChar | step3.py:243 | ASCII capitals map to small letters; every other character is unchanged |
| Strings.Lower | step3.py:243 | same length, lower-cased character by character |
| Strings.JoinLength | step2.py:229 | a join's length is the parts' total plus one separator between each pair |
| Strings.JoinFront | step2.py:229 | a join of two or more parts is the first part, the separator, and the join of the rest |
| Strings.Slice | step2.py:131 | Python slicing: the characters between the two positions, or "" when the end is not after the start |
| Strings.Preview | step3.py:137 | the text itself when it has at most n characters, otherwise its first n characters followed by "..."; never longer than n + 3 |
| Normalize.Collapse | step2.py:23 | never longer; empty exactly for empty input; keeps whether the first character is whitespace |
| Normalize.CollapseNoDoubleSpace | step2.py:23 | no two neighbouring whitespace characters are left |
| Normalize.CollapseChars | step2.py:23 | every character left is a plain space or a character of the input that is not whitespace |
| Normalize.CollapseKeepsWords | step2.py:27 | the word characters are kept, in order |
| Normalize.StripKeepsWords | step2.py:23 | stripping keeps the word characters, in order |
| Normalize.ReplaceSymbols | step2.py:25 | same length; a word character or whitespace is kept, anything else becomes a space |
| Normalize.ReplaceKeepsWords | step2.py:25 | the word characters are kept, in order |
| Normalize.PreprocessSpec | step2.py:20-28 | no whitespace run survives; only word characters and plain spaces remain; never longer than the input; the word characters survive in order; "" maps to "" |
| Normalize.PreprocessNotIdempotent | step2.py:20-28 | "a!" normalises to "a ", and a second pass yields "a": the function is not idempotent |
| Normalize.PreprocessSymbolAtEnd | step2.py:23-27 | a symbol at the end becomes a space that the last collapse keeps |
| Normalize.PreprocessSpaceAtEnd | step2.py:23 | a trailing space is stripped |
| Chunking.SplitSentences | step2.py:36 | the split never returns an empty list |
| Chunking.SplitSentencesSpec | step2.py:36 | one piece more than there are terminators; no piece holds a terminator; together the pieces spell the text without its terminators |
| Chunking.SplitCount | step2.py:36 | number of pieces = number of terminators + 1 |
| Chunking.SplitNoTerminator | step2.py:36 | no piece holds a terminator |
| Chunking.SplitConcat | step2.py:36 | the concatenated pieces are the text with its terminators removed |
| Chunking.FillSkip | step2.py:40-42 | a piece that strips to nothing leaves the buffer and the chunks unchanged |
| Chunking.FillExtend | step2.py:44-45 | a sentence that fits below the bound is appended to the buffer, followed by ". " |
| Chunking.FillFlush | step2.py:46-49 | a sentence that does not fit flushes the stripped buffer (if any) and starts a new buffer |
| Chunking.FlushedBuffer | step2.py:48 | a flushed buffer loses exactly its final space; the chunk is non-empty, stripped and ends in `.`, and a chunk over the bound is one sentence |
| Chunking.ExtendBuffer | step2.py:45 | appending a stripped sentence and ". " keeps the buffer's shape |
| Chunking.FillKeepsSentences | step2.py:39-52 | the chunks, each followed by a space, spell the buffer and then every kept sentence followed by ". ", in order |
| Chunking.FillChunkShape | step2.py:39-52 | every chunk is non-empty, stripped and ends in `.`; a chunk over the bound is a single sentence |
| Chunking.FillEmpty | step2.py:51-54 | the loop yields no chunk exactly when no piece holds a sentence |
| Chunking.ChunksSpec | step2.py:30-54 | never empty; [text] for a text within the bound or one without a sentence; otherwise chunks that are non-empty, stripped and end in `.` (so each ends at a kept sentence's end), are over the bound only as a single sentence, and, each followed by a space, spell the kept sentences in order, each followed by ". " |
| Chunking.ShortText | step2.py:32-33 | a text within the bound is its own single chunk, unchanged |
| Chunking.LongText | step2.py:35-54 | a longer text gets the loop's chunks, or [text] when the loop yields none |
| Chunking.ChunkText | step2.py:30-54 | the loop returns exactly the chunks of the specification |
| Chunking.TakePiece | step2.py:39-49 | one loop pass consumes one piece without changing the final result |
| Scanner.ImageRefAt | step2.py:121 | a match found at p ends after p and inside the text |
| Scanner.ImageRefAtSpec | step2.py:121 | the matcher reports a match exactly when an `![alt](path)` match starts at p, and that match is the only one |
| Scanner.ImageRefForced | step2.py:121 | a match that spans [p, e) is the one the matcher finds |
| Scanner.CaptionAtSpec | step2.py:147 | the matcher reports a match exactly when a `[이미지 캡션: …]` match starts at p, and that match is the only one |
| Scanner.CaptionAtSound | step2.py:147 | what the caption matcher reports is a caption match |
| Scanner.CaptionAtComplete | step2.py:147 | every caption match at p is the one reported |
| Scanner.CaptionForced | step2.py:147 | a caption closes at the first `]` after its opener |
| Scanner.PlaceholderAtSpec | v_embed.py:77 | a match is reported exactly when the literal `<!-- image -->` starts at p |
| Scanner.MatchAtSpec | step2.py:121-122 | for each of the three patterns, the matcher reports exactly the match that starts at p |
| Scanner.FindAllMatch | step2.py:122 | every reported span lies in the scanned range and is a match |
| Scanner.FindAllDisjoint | step2.py:122 | the spans come in order and do not overlap |
| Scanner.FindAllComplete | step2.py:122 | no match is missed before, between or after the reported spans |
| Scanner.NoneMissedSkip | step2.py:122 | a position where no match starts may be added in front of the scan |
| Scanner.NoneMissedCons | step2.py:122 | a match found at the scan position may be put in front of the spans found after it |
| Scanner.FindAllEmpty | step2.py:124 | no span is reported exactly when no match starts anywhere |
| Scanner.CaptionTexts | step2.py:148 | one caption text per caption match |
| Scanner.CaptionTextsSpec | step2.py:147-148 | caption text k is the non-empty group, without `]`, of caption match k, framed by the opener and `]` |
| Scanner.CaptionMatchBody | step2.py:147 | a caption match is the opener, a non-empty body without `]`, then `]` |
| Sequences.ImageSegment | step2.py:140-161 | an image segment exists exactly when the file can be read; it holds the data URI, the file name and the caption |
| Sequences.Gaps | step2.py:129-166 | one text slice per marker, plus the slice after the last marker |
| Sequences.GapAt | step2.py:131 | slice k runs from where the scan resumed to the start of marker k, stripped |
| Sequences.InterleaveParts | step2.py:129-168 | the text segments are the non-empty slices in order; the image segments are what the markers contribute, in order |
| Sequences.GapsShape | step2.py:131-166 | every slice is stripped and shorter than the markdown |
| Sequences.PresentImagesCount | step2.py:136 | each marker adds at most one image, and markers past the last image file add none |
| Sequences.ResumeAdvances | v_embed.py:84-111 | `current_pos` only moves forward, to the end of each marker |
| Sequences.MarkerImages | step2.py:136-157 | marker i contributes the image of file i with caption match i (or ""), and nothing when there is no file i |
| Sequences.MarkdownNoMarkers | step2.py:181-188 | without an image reference, the content is a single text segment holding the whole, unstripped markdown |
| Sequences.MarkdownTexts | step2.py:124-168 | with a reference, the text segments are the non-empty stripped slices between references, in reading order |
| Sequences.MarkdownImages | step2.py:129-157 | marker i's image is file i with caption match i; there are no more images than markers or files |
| Sequences.TextBetween | step2.py:131 | the stripped text between the two positions |
| Sequences.AppendText | step2.py:132-133 | a text segment is appended only for a non-empty text |
| Sequences.AppendImage | step2.py:140-161 | the image segment is appended when the file can be read, and nothing otherwise |
| Sequences.WeaveMarkers | step2.py:126-168 | the marker loop builds exactly the interleaving of the slices and the marker images |
| Sequences.BuildMarkdownContent | step2.py:121-185 | the content of one document is its specification |
| Sequences.BuildSequence | step2.py:111-189 | the record of one document |
| Sequences.CreateSequences | step2.py:106-192 | one record per document, in input order |
| Sequences.CaptionMapLastWins | v_embed.py:74 | the map holds the names some entry is for, and for each name its last entry |
| Sequences.CaptionFor | v_embed.py:104 | an image whose name the map lacks gets caption "" |
| Sequences.PlaceholderImages | v_embed.py:91-105 | placeholder i contributes the image of file i with the caption the map holds for its name, and nothing when there is no file i |
| Sequences.ParsedNoMarkers | v_embed.py:129-138 | without a placeholder, the content is a single text segment holding the whole markdown |
| Sequences.ParsedTexts | v_embed.py:79-116 | with a placeholder, the text segments are the non-empty stripped slices between placeholders, in order |
| Sequences.ParsedImages | v_embed.py:84-109 | placeholder i's image is file i with its mapped caption; there are no more images than placeholders or files |
| Sequences.PlaceholderImage | v_embed.py:91-109 | one placeholder's image step |
| Sequences.WeavePlaceholders | v_embed.py:81-116 | the placeholder loop builds exactly the interleaving |
| Sequences.BuildParsedContent | v_embed.py:77-133 | the content of one parsed document is its specification |
| Sequences.BuildParsedSequence | v_embed.py:64-137 | the record of one parsed document |
| Sequences.CreateParsedSequences | v_embed.py:59-140 | one record per parsed document, in input order |
| Embedding.TextItem | step2.py:214-226 | a text yields its normalised text when that is non-empty; an image yields `[이미지: <normalised caption>]` when it has a non-empty caption and `[이미지]` otherwise |
| Embedding.PreprocessNoBracket | step2.py:217-224 | a normalised text never looks like an image item |
| Embedding.TextItemsNonEmpty | step2.py:218-226 | every item of the combined text is non-empty |
| Embedding.TextItemsImages | step2.py:220-226 | the image items are exactly the items of the image segments, one per image in order: item k is image k's `[이미지: <caption>]` or `[이미지]` |
| Embedding.TextItemsTexts | step2.py:215-219 | the other items are the normalised non-empty texts, in segment order |
| Embedding.CollectTextItems | step2.py:213-226 | the item loop returns exactly the specified items |
| Embedding.FirstSuccess | step2.py:243-256 | a recorded answer comes from one of the models and is what that model returned |
| Embedding.FirstSuccessNone | step2.py:243-261 | nothing is recorded exactly when every model fails |
| Embedding.FirstSuccessAt | step2.py:243-256 | the first model that succeeds is the one recorded |
| Embedding.TryModels | step2.py:241-261 | the fallback loop with `break` returns the first success |
| Embedding.ChunkEmbeddingsSound | step2.py:237-256 | every entry is for a chunk, holds its text and the first successful model's vector |
| Embedding.ChunkEmbeddingsIncreasing | step2.py:238-254 | chunk indices strictly increase: at most one entry per chunk |
| Embedding.ChunkEmbeddingsComplete | step2.py:238-256 | every chunk that some model embeds has an entry |
| Embedding.ChunkEmbeddingsEmpty | step2.py:237-266 | no entries exactly when no model embeds any chunk |
| Embedding.EmbedChunks | step2.py:237-264 | the chunk loop returns exactly the specified entries |
| Embedding.Mean | step2.py:269 | a mean exists exactly when all vectors have one length, and it has that length |
| Embedding.MeanOfCopies | step2.py:269 | equal vectors average to that vector |
| Embedding.EmbedDocumentKept | step2.py:266-281 | a document is kept exactly when some chunk is embedded and the chunk vectors have one length |
| Embedding.EmbedDocumentFields | step2.py:271-277 | a kept document keeps its name, content and combined text, and records its chunk entries |
| Embedding.EmbedDocumentOneChunk | step2.py:266-274 | with one chunk entry, the document's vector is that chunk's vector |
| Embedding.EmbedOne | step2.py:209-284 | one document's pass: combine, chunk, embed and average |
| Embedding.DocResults | step2.py:208 | one result per document, in order |
| Embedding.CreateEmbeddings | step2.py:194-286 | the kept documents' embeddings, in order |
| Embedding.CreateEmbeddingsOrder | step2.py:208-286 | the output keeps input order and drops exactly the documents that fail |
| Embedding.MultimodalInput | v_embed.py:154-166 | one input per segment |
| Embedding.MultimodalInputAt | v_embed.py:156-166 | input i is text or image as segment i is, and carries the same text or data |
| Embedding.MultimodalInputTexts | v_embed.py:157-161 | the text inputs carry the texts of the text segments, in order |
| Embedding.MultimodalInputImages | v_embed.py:162-166 | the image inputs carry the data of the image segments, in order |
| Embedding.BuildMultimodalInput | v_embed.py:154-166 | the input loop returns exactly the specified inputs |
| Embedding.EmbedParsedSpec | v_embed.py:168-186 | a document is dropped exactly when its call fails; a kept one has its name, content and the returned vector |
| Embedding.ParsedResults | v_embed.py:149 | one result per document, in order |
| Embedding.CreateParsedEmbeddings | v_embed.py:142-192 | the embeddings of the documents whose call succeeds, in order |
| Embedding.CreateParsedEmbeddingsOrder | v_embed.py:149-190 | a failure drops only its own document, and input order is kept |
| Index.Collection.constructor | step2.py:297-318 | a new, empty collection of the given dimension |
| Index.Collection.Upsert | step2.py:356 | the batch is appended exactly when every vector has the collection's dimension; otherwise nothing changes |
| Index.Info | step2.py:333-337 | an image entry has the image's name and caption, and its data URI cut to 100 characters plus "..." (at most 103) |
| Index.DocPieces | step2.py:329-338 | one text piece per segment |
| Index.ImageInfosSpec | step2.py:327-337 | one image entry per image segment, in order |
| Index.DocPayloadCounts | step2.py:345-351 | `image_count` is the number of image segments; `content_count` is the number of segments |
| Index.DocPiecesAt | step2.py:329-338 | piece i is the text of segment i, or `[이미지: caption]` |
| Index.DescribeContent | step2.py:326-338 | the segment loop returns the specified pieces and image entries |
| Index.DocPoints | step2.py:323-353 | one point per embedding, in order |
| Index.BuildDocPoints | step2.py:323-353 | the point loop returns the specified points |
| Index.SaveToIndex | step2.py:288-361 | the collection's dimension is the first embedding's length, or 1536; it holds every point, in order, exactly when all of them fit |
| Index.SaveAcceptsUniform | step2.py:304-356 | embeddings of one dimension are all accepted |
| Index.ParsedPieces | v_embed.py:225-230 | one text piece per segment |
| Index.ParsedPiecesAt | v_embed.py:225-230 | piece i is the segment's text, or its caption (`[IMAGE]` only when the caption is absent) |
| Index.CollectParsedPieces | v_embed.py:225-230 | the segment loop returns the specified pieces |
| Index.ParsedPoints | v_embed.py:222-243 | one point per embedding, in order |
| Index.BuildParsedPoints | v_embed.py:222-243 | the point loop returns the specified points |
| Index.SaveParsedToIndex | v_embed.py:194-251 | a 1024-dimensional collection that holds every point, in order, exactly when all of them fit |
| Index.SearchDocuments | step2.py:363-406 | the ranking for the first model's query vector, or no hits exactly when every model fails on the normalised query |
| Index.QueryInput | v_embed.py:262-279 | [text], or [text, image] when a non-empty image is given |
| Index.SearchParsed | v_embed.py:253-291 | the ranking for the multimodal query vector, or no hits when the call fails |
| Qa.Retrieve | step3.py:172-183 | the same question, the retriever's documents and an empty answer |
| Qa.PageContents | step3.py:192 | the page contents, in retrieval order |
| Qa.ContextSpec | step3.py:192 | "" for no documents; the page content itself for one; otherwise the first page content, a blank line, and the context of the rest; its length is the contents' total plus two per gap |
| Qa.Generate | step3.py:185-209 | question and documents unchanged; the answer is the model's answer to the filled-in prompt |
| Qa.WorkflowSpec | step3.py:212-224 | retrieve runs once, then generate runs once on its output; generate never runs when retrieval raises |
| Qa.View | step3.py:133-137 | the source is `pdf_name` or "N/A"; the preview is the first 300 characters, followed by exactly "..." for a longer text |
| Qa.SearchResultViews | step3.py:126-138 | one view per document, in order |
| Qa.Initial | step3.py:252 | the question, no documents and an empty answer |
| Qa.OutcomeOf | step3.py:252-263 | the answer and document count, or a reported failure |
| Qa.ClassifySpec | step3.py:241-248 | Ctrl-C or an exit word stops the loop; a blank line is skipped; any other line is asked, stripped, non-empty and not an exit word |
| Qa.Kinds | step3.py:241-248 | one kind per event, in order |
| Qa.OutcomesPerQuestion | step3.py:239-263 | one outcome per question asked, each depending on that question alone |
| Qa.SessionPerQuestion | step3.py:239-263 | each question is asked once, in order; a failure does not stop the questions after it |
| Qa.AskedAskable | step3.py:241-248 | what is asked is askable |
| Qa.QuestionsShape | step3.py:241-248 | every question asked is stripped, non-empty and not an exit word |
| Qa.OutcomesStop | step3.py:243-245 | nothing after the first stop counts |
| Qa.SessionStops | step3.py:243-245 | the session ends at the first stop: later lines are never read |
| Qa.OutcomesStep | step3.py:243-257 | the outcomes of one pass, by the kind of event read |
| Qa.InteractiveQa | step3.py:230-263 | the loop, with the end of input ending it, reports exactly the session |
| Qa.ReadEvent | step3.py:241-248 | the tests made on what `input()` returned |
| Qa.AskQuestion | step3.py:252-263 | one workflow call's outcome |
| Qa.AsWrittenSpinsAtEnd | step3.py:239-263 | at the end of input, every pass reports another read error and the loop never ends |
| Qa.AsWrittenNeverEndsOnEmptyInput | step3.py:239-263 | with no input, the loop as written has not ended after any number of passes |
| Qa.CorrectedStopped | step3.py:243-245 | once ended, the loop stays ended |
| Qa.CorrectedRunIsOutcomes | step3.py:239-263 | the corrected loop ends within one pass more than there are events left, with exactly their outcomes |
| Qa.CorrectedRunIsSession | step3.py:239-263 | on a list of lines, the corrected loop ends with exactly the session |

## Left out

- File loading: `load_processed_data` (step2.py:56-104) and `load_parsed_data` (v_embed.py:17-57) walk directories. Their results are inputs here, and the order of `image_files` is whatever the caller gives.
- Image bytes: reading and base64-encoding an image file are not modelled. Each file carries its base64 text, or `None` when reading fails, and the loop then skips the image as the `except` branch does.
- External services are parameters:
  - Voyage text and multimodal embedding, and `list_models`;
  - Qdrant's `delete_collection`, `create_collection` and `search` (the ranking is a `Ranker` parameter; cosine similarity over floats is not modelled);
  - the retriever built in step3.py (its `k` and its vector-store setup) and the OpenAI chat chain.
- Point ids: `uuid.uuid4()` ids are random, so points carry no id.
- Printing, logging, `input()` and the progress messages are not modelled. The question loop reads a list of events instead.
- `main`, `test_search_functionality` and the step3.py setup functions (`check_existing_collections`, `load_existing_qdrant_data`, `create_retriever`) are not part of this model.
- Normalize.IsWordChar: `\w` is Unicode-wide in Python. The model approximates it by ASCII letters, digits and `_`, the Latin-1 letters, Hangul syllables and jamo, and the CJK unified ideographs. A letter of another script counts as a symbol and becomes a space. `\s` and `str.strip()` use Python's full whitespace set.
- Strings.LowerChar: lower-cases ASCII letters only instead of all of Unicode. This is exact for the exit words `quit`, `exit` and `종료`, but a non-ASCII capital is kept as is.
- Embedding.Mean: the mean is over exact reals, not IEEE doubles as `np.mean` computes it. Ragged vectors have no mean, as `np.mean` raises and the document is dropped.
- Index.Collection.Upsert: a Qdrant upload of a vector of the wrong dimension raises, and `save_to_qdrant` does not catch it. The model reports the refusal as `ok == false` with the collection left empty.
- Qa.InteractiveQa: a Ctrl-C is modelled while `input()` waits, not in the middle of a workflow call. The loop ends at the end of input, which the source does not do (see "## Findings"). The as-written loop is `Qa.AsWrittenStep`.

## Findings

| source | as written | input that shows it | evidently intended | confidence | as-written member | corrected member |
|---|---|---|---|---|---|---|
| step3.py:239-263 | at the end of input, `input()` raises `EOFError`; `except Exception` reports it, and `while True` asks again forever | an empty standard input (or any input without an exit word): the loop never ends and prints an error on every pass | the end of input ends the loop, as an exit word does | not executed | Qa.AsWrittenNeverEndsOnEmptyInput | Qa.CorrectedRunIsSession |
