# RAG reading assistant: a Dafny model of its retrieval core

`p2.py` is a small desktop reading assistant. At start-up it cuts a story
file into paragraphs and gets one embedding per paragraph. The embeddings
come from a JSON cache file, or from the embedding service, which then fills
the cache. For each question it embeds the question and ranks every stored
paragraph embedding by cosine similarity. The five best paragraphs, joined
with newlines, go to the chat model as context.

This project models that retrieval core as pure Dafny functions, plus two
methods, and proves what the code guarantees about it:

- `Text`: Python's `str.strip` (with the `str.isspace` character set),
  `sep.join`, one-character `split`, and the line cutting of `readlines`.
- `Segmenter`: `parse_file`. The method `ParseLines` follows the buffer loop
  line by line. It is proved equal to a reference definition, `Paragraphs`:
  every maximal run of non-blank lines, stripped and joined with spaces.
- `EmbeddingCache`: `load_embeddings`, `save_embeddings` and
  `get_embeddings`. The cache directory is a map from path to stored list.
  The embedding service is a function parameter that may fail.
- `Ranking`: the scoring and `sorted(..., reverse=True)` of
  `find_most_similar`, and the `[:5]` slice. The similarity measure is a
  function parameter.
- `Assistant`: `handle_question` from stripping the prompt to building the
  context string, including the `IndexError` a stale cache can cause.
- `Results`: the `Option` and `Result` types the others use.

Two behaviours of the code shape the model:

- **Cache key.** The cache file of a document is `embeddings/<filename>.json`
  (p2.py:32). The embedding model's name is not part of the path
  (`EmbeddingCache.CachePath`). A cache file written by another model, or
  for an older version of the document, is used as it is.
- **Ties.** `find_most_similar` sorts `(score, index)` tuples in reverse
  (p2.py:62). Equal scores therefore put the larger index first, and the
  ranking is fully determined (`Ranking.SortedUnique`,
  `Ranking.TiedScoresLargerIndexFirst`).

## Model

| member | source | states |
|---|---|---|
| Text.Strip | p2.py:17 | The stripped line has no `str.isspace` character at either end, and it is empty exactly when the line is all whitespace. With `Text.StripSlice` this determines the result. |
| Text.StripSlice | p2.py:17 | Stripping removes whitespace from the ends and nothing else. The result is a contiguous slice of the line, and everything before and after that slice is whitespace. |
| Text.ReadLines | p2.py:16 | The lines of `readlines` concatenate back to the text. Every line is non-empty and holds one newline, as its last character. Only the final line may lack it. |
| Text.SplitJoin | p2.py:113 | A newline-joined context can be cut at its newlines back into the joined parts, when no part contains a newline. |
| Segmenter.ParseLines | p2.py:14-24 | The buffer loop over the lines read returns exactly the reference paragraphs: the maximal runs of non-blank lines, stripped and space-joined, in document order. |
| Segmenter.ParseFile | p2.py:12-25 | The paragraphs of the file are the reference paragraphs of its lines. Each paragraph is non-empty, has no whitespace at either end and contains no newline. |
| Segmenter.RunsWellFormed | p2.py:17-19 | Every run of buffered lines is non-empty, and every buffered line is a non-empty stripped line. |
| Segmenter.ParagraphsWellFormed | p2.py:17-24 | No paragraph is empty or has whitespace at either end, for any list of lines. |
| Segmenter.BlankInputYieldsNothing | p2.py:18-24 | The file has no paragraph if and only if all of its lines are blank. This covers the empty file. |
| Segmenter.SplitAtBlank | p2.py:20-22 | A blank line separates paragraphs: the paragraphs of `a + [blank] + b` are those of `a` followed by those of `b`. |
| Segmenter.SingleRun | p2.py:16-24 | Lines with no blank line among them form exactly one paragraph: their stripped forms joined with single spaces. |
| Segmenter.ContentPreserved | p2.py:16-24 | No text is lost or reordered. The paragraphs, joined with spaces, equal the non-blank stripped lines joined with spaces. |
| Segmenter.ParagraphThenBlank | p2.py:16-22 | A one-line paragraph followed by an empty line gives that paragraph, then the paragraphs of the rest. |
| Segmenter.RoundTrip | p2.py:12-25 | Paragraphs that are non-empty, stripped and free of `\n`, joined into decoded text with a blank line between each, segment back to the same list. |
| Segmenter.ReadLinesParagraphsOneLine | p2.py:16-24 | No paragraph of a file contains a newline. |
| EmbeddingCache.CachePathInjective | p2.py:32 | The path strings `embeddings/<filename>.json` of two file names are equal if and only if the names are equal as strings, so documents with different names have different map entries. |
| EmbeddingCache.Load | p2.py:37-41 | Loading finds a list if and only if the document's cache file exists, and the list found is the one stored there. A missing file is `None`, the model of `False`. |
| EmbeddingCache.Save | p2.py:29-33 | In the map that stands for the cache directory, the document's entry becomes the saved list, and every other document's entry is kept. |
| EmbeddingCache.EmbedAll | p2.py:48-51 | Embedding the chunks succeeds if and only if every call succeeds. On success the i-th result is the i-th call's embedding. On failure the error is that of the first failing call, and every earlier call succeeded. |
| EmbeddingCache.GetEmbeddings | p2.py:45-53 | On a cache hit the stored list is returned and nothing is written, whatever the chunks. On a miss the call succeeds if and only if every chunk is embedded. Success returns one embedding per chunk, in order, and saves exactly that list. Failure writes nothing. Other documents are never touched. |
| EmbeddingCache.Idempotent | p2.py:45-53 | A second call after a successful one returns the same list and leaves the cache as it was, whatever chunks, model or service it is given. |
| EmbeddingCache.EmptyEntryIsHit | p2.py:38-47 | A stored empty list is a cache hit, because the miss test is `is not False`. It is returned without calling the service. |
| Ranking.Insert | p2.py:62 | Inserting a new pair into a list in descending tuple order keeps the order, and adds exactly that pair. |
| Ranking.Sort | p2.py:62 | Sorting distinct pairs gives a permutation of them in descending tuple order. |
| Ranking.FindMostSimilar | p2.py:57-62 | The ranking is a permutation of the pairs `(similarity(needle, haystack[i]), i)`. Every entry's index is in range and carries its own score. Scores do not increase down the list, and equal scores put the larger index first. |
| Ranking.SortedUnique | p2.py:62 | Two lists in descending tuple order with the same elements are equal, so the ranking of a given haystack is unique. |
| Ranking.RankedSomewhere | p2.py:59-62 | Every stored embedding appears in the ranking with its own score and index. |
| Ranking.TiedScoresLargerIndexFirst | p2.py:62 | Of two chunks with equal scores, the one with the larger index is ranked first. |
| Ranking.Top | p2.py:112 | The slice keeps `min(5, n)` pairs, and they are the first ones of the ranking. |
| Ranking.TopAreMostSimilar | p2.py:112 | A chunk left out of the top five scores no higher than any chunk kept. |
| Assistant.Gather | p2.py:113 | Looking up the ranked indices succeeds if and only if every index is below the paragraph count. Success gives `paragraphs[index]` for each pair, in rank order. Failure reports the first index past the end. |
| Assistant.BuildContext | p2.py:113 | The join is built if and only if every ranked index names a paragraph. Its value is the chosen paragraphs joined with `\n` in rank order. Otherwise the error names the first index, in rank order, past the last paragraph. |
| Assistant.ContextRoundTrip | p2.py:113 | Cutting the context at its newlines gives back the chosen paragraphs in rank order, when none of them contains a newline. |
| Assistant.AskContext | p2.py:102-113 | The prompt is rejected if and only if it strips to the empty string. Otherwise the context is built if and only if every top-five index names a paragraph, which always holds when there are no more embeddings than paragraphs. A built context is the chosen paragraphs joined with `\n` in rank order. A failure names the first top-five index, in rank order, that is past the last paragraph. |
| Assistant.FewEmbeddingsInBoundsIff | p2.py:112-113 | With at most five embeddings every one reaches the slice, so the context is built if and only if there are no more embeddings than paragraphs. |
| Assistant.FreshEmbeddingsAnswer | p2.py:112-113 | With embeddings computed for the document's own paragraphs, as `__init__` does on a cache miss (lines 73-74), every question gets a context. Its lines are the paragraphs of the top-ranked chunks, in rank order. |
| Assistant.StaleCacheFails | p2.py:113 | A concrete case of the failure: a cache file with two embeddings, a document that now has one paragraph, and a question whose best match is the second embedding. `get_embeddings` returns the stale list and the lookup fails on index 1. |

## Left out

- Reading the file is not modelled. Decoding with `utf-8-sig` (including the byte-order mark) and newline translation are not modelled either. `ParseFile` takes the decoded text after `\r\n` and `\r` have become `\n`.
- JSON encoding and decoding of the cache files is not modelled. A file holds exactly the list that was saved, and a corrupt or hand-edited file is not modelled.
- The `embeddings` directory creation (`os.makedirs`) is not modelled. It is part of writing a file, and the map model has no directories.
- EmbeddingCache.CachePathInjective: this is about path strings only. Different names that reach the same file on a real file system are not modelled, such as `./story.txt` and `story.txt`, or names that differ only in case on a case-insensitive file system.
- EmbeddingCache.Save: writing never fails in the model. In the code, `open(..., "w")` at p2.py:32 raises when the file name has a directory part other than `embeddings` (only that directory is created, p2.py:30-31), and then no list is stored even though every chunk was embedded. The program's only caller passes `story.txt`.
- Segmenter.RoundTrip: the text is the decoded text after newline translation, where `\n` is the only line break. A paragraph containing `\r` written to a real file would be cut at the `\r` when read back.
- The embedding service (`ollama.embeddings`) is the parameter `embed`. Its failures are an error value; no exception type is modelled. The prompt's embedding in `handle_question` is the parameter `promptEmbedding`, and a failure of that call is not modelled.
- Ranking.FindMostSimilar: the cosine similarity with NumPy floats is the parameter `similarity` into exact reals. The model leaves out division by a zero norm, NaN scores and the inconsistent order `sorted` gives them, and floating-point rounding.
- The chat call (`ollama.chat`), the system prompt text, and the message list built from them are not modelled. They are a foreign call whose answer the code only displays.
- The Tkinter window, the input field, the error box and the output area are not modelled. The model keeps only their logic: an empty prompt stops the question (`Assistant.EmptyPrompt`).
- `main` is not modelled: the fixed file name `story.txt`, its existence check and the start of the window loop. It is only program start-up.
