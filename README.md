# A verified model of the TWI corpus-preparation core

This project models the deterministic core of a pipeline that prepares the
text of a web serial for a knowledge graph. The core has three pieces, and
the project proves properties of each.

- **Chunking** (`chunk_chapters.py`). A chapter is split into scenes at
  scene-break tokens: asterisk runs, em-dash runs, en-dash runs, or `_hv_`.
  A scene longer than 16000 characters is cut into chunks by greedy
  packing of its paragraphs; a paragraph too large for any chunk goes out
  alone. Every chunk becomes a record with the id
  `{order}_{scene}_{sub}` and a token estimate of `len // 4`.
  - Modules: `Scenes` (`split_into_scenes`), `Chunking` (`chunk_text`) and
    `Assembly` (the chapter loop of `process_volume`).
- **Extraction driver** (`extract_entities.py`), module `Extraction`. This
  is `run_extraction_batch`, a resumable loop over the chunks. For each
  chunk it:
  - skips chunks outside chapter "1.00" and chunks already recorded;
  - calls the language model, or the deterministic mock;
  - removes code fences from the answer;
  - parses it as JSON, recording an error object when that fails;
  - appends a record;
  - saves a checkpoint whenever the total number of records is a multiple of 5.

  After the loop it saves once more. The module also models the helpers the
  driver uses: the reference list of known characters, the prompt and its
  truncation, and the mock generator.
- **Filename sanitiser** (`scrape_chapters.py`, `clean_filename`), module
  `Filenames`.

Module `Text` holds the string helpers the others share:
- whitespace and `strip`;
- substring search and `str.replace` with an empty replacement;
- `"\n".join` and `str.split("\n")`;
- decimal rendering of integers.

The loops of the source are modelled as methods with loops:
- `Scenes.SplitIntoScenes`;
- `Chunking.ChunkText`;
- `Assembly.AssembleChapter` and `Assembly.ProcessVolume`;
- `Extraction.RunExtractionBatch`.

Each method is proved equal to a specification function, and the
properties are lemmas about those functions.

Modelling decisions:
- **`re.split` is an oracle.** `SplitIntoScenes` takes the result of
  `re.split` with the pattern at chunk_chapters.py:32 as a parameter
  (`reSplit`).
  - `IsReSplitOf` states the shape all such outputs share. Pieces alternate
    with captured separators, and each match is a line feed, whitespace,
    the separator, whitespace and a line feed.
  - `CapturesDropped` shows that the captured separators never become
    scenes.
  - The recogniser at chunk_chapters.py:50 is modelled exactly
    (`IsSeparatorToken`).
- **Whitespace is a fixed set.** `strip` and `\s` use the ASCII characters
  that Python treats as whitespace. The model has no Unicode whitespace.
- **Files are inputs.** The chapter files of a volume are a map from
  filename to contents.
  - A missing `filename` key and an empty filename are both skipped.
  - The index entry's `order` is an integer.
- **The external calls are parts of `Env`.**
  - `Env.llm` is the model call, returning `Ok(content)` or `Fail`. `Fail`
    covers every exception the `try` block catches.
  - `Env.parse` is `json.loads`, returning `None` for a `JSONDecodeError`.
  - `Env.isMock` is the mock switch, `USE_MOCK or force_mock`.
  - `save_json` is a log: `saves` lists every snapshot that would be
    written, in order.
- **The model receives a structured prompt.** The call takes a `Prompt`,
  meaning the two values filling the template's holes: the truncated
  reference list and the scene text.
  - `RenderPrompt` produces the text of the f-string at
    extract_entities.py:70-100, character for character.
  - An oracle on the rendered text is the special case
    `p => f(RenderPrompt(p))`, so every driver property holds for it too.
  - This keeps the long template text out of the driver's proofs.
- **JSON is a datatype.** A number keeps its lexeme. `json.dumps` is
  modelled with its default separators and escapes only the double quote
  and the backslash.
- **Checkpoints follow the test, not the comment.** The comment at
  extract_entities.py:178 says "every 5 chunks", but line 179 tests
  `len(extracted_data)`, the total number of records, resumed ones
  included. The model saves on that total.
- **No final save after an escaping exception.** No `try`/`finally`
  surrounds the loop, so the save at extract_entities.py:196 happens only
  when the loop finishes.
- **Parse failures are never retried.** The error record is appended at
  extract_entities.py:176, so its id is among the resumed ids of the next run.

## Model

| member | source | states |
|---|---|---|
| Scenes.SplitIntoScenes | chunk_chapters.py:37-56 | The loop returns exactly the kept parts of the `re.split` output, in order. A kept part is stripped, is not a separator token and is not empty. |
| Scenes.KeptScenesWellFormed | chunk_chapters.py:47-56 | Every scene returned is non-empty, equals its own strip, and is not a separator token. |
| Scenes.SeparatorDropped | chunk_chapters.py:50-51 | A separator token contributes no scene: its strip is itself, and matching it means skipping it. |
| Scenes.CapturesDropped | chunk_chapters.py:32-54 | When every odd-indexed part is a captured separator, the scenes are those of the even-indexed pieces alone. |
| Scenes.KeptScenesAppend | chunk_chapters.py:47-54 | Filtering distributes over concatenation of the parts, so scene order follows part order. |
| Scenes.NoSeparatorMatch | chunk_chapters.py:37-54 | When the split has no match, so that its only part is the text, the result is `[strip(text)]`, or `[]` when that strip is empty or is itself a separator token. |
| Scenes.IsSeparatorToken | chunk_chapters.py:50 | The full-match recogniser: an asterisk followed by asterisks and whitespace ending in an asterisk, a run of em dashes, a run of en dashes, or `_hv_` (a definition, with no contract). |
| Scenes.AsteriskTailEnd | chunk_chapters.py:50 | An asterisk-run token ends in an asterisk. |
| Scenes.ExampleSplit | chunk_chapters.py:32-56 | `"Para A.\n\n***\n\nPara B."` has the split shape `["Para A.", "***", "Para B."]`, which gives the scenes `["Para A.", "Para B."]`. |
| Chunking.ChunkText | chunk_chapters.py:58-95 | The paragraph-packing loop, with its final flush, returns the specification `Chunked`. |
| Chunking.Step | chunk_chapters.py:71-90 | One iteration of the loop, in each of its three branches, consumes one paragraph of the specification. |
| Chunking.ChunkedNonEmpty | chunk_chapters.py:63-93 | `chunk_text` never returns an empty list, and returns exactly `[text]` when `len(text) <= max_chars`. |
| Chunking.ChunkedRoundTrip | chunk_chapters.py:63-93 | Joining the chunks with `"\n"` gives back the text, for every ceiling. |
| Chunking.PackJoin | chunk_chapters.py:71-93 | From any loop state, the chunks still to come join to the pending paragraphs followed by the remaining ones. |
| Chunking.ChunkedBound | chunk_chapters.py:63-93 | Every chunk is within the ceiling or holds no line feed. For a text over the ceiling, every chunk is shorter than the ceiling or is one paragraph. |
| Chunking.PackBound | chunk_chapters.py:73-93 | Chunks packed from paragraphs are shorter than the ceiling, because each paragraph counts one more than its length. An oversized paragraph goes out alone. |
| Chunking.FlushFits | chunk_chapters.py:76-77 | Flushing a pending chunk whose counted length is within the ceiling yields a chunk shorter than the ceiling. |
| Assembly.AssembleChapter | chunk_chapters.py:131-148 | The nested scene and sub-chunk loops produce the specification `ChapterRecords` of the chapter's scenes. |
| Assembly.ProcessVolume | chunk_chapters.py:116-148 | The chapter loop skips entries without a file name or file, and appends each other chapter's records in index order. |
| Assembly.SceneRecordsShape | chunk_chapters.py:135-147 | Sub-chunk `k` of a scene becomes record `k`, carrying its id, indices, text and token estimate. |
| Assembly.ChapterRecordsWellFormed | chunk_chapters.py:132-147 | There is one record per chunk of every scene. Each record has id `{order}_{scene}_{sub}`, the chapter's order and title, its chunk's text and `token_estimate == len(text) // 4`. |
| Assembly.ChapterRecordsConsecutive | chunk_chapters.py:132-135 | Scene and sub-chunk indices are 0-based and consecutive: the first record is `(0, 0)`, each next record is the next sub-chunk or the next scene's first, and the last record is in the last scene. |
| Assembly.ConsecutiveIncreasing | chunk_chapters.py:132-147 | Consecutive numbering puts the records in scene order, then sub-chunk order. |
| Assembly.ChunkIdInjective | chunk_chapters.py:136 | The id string determines order, scene and sub-chunk, negative orders included. |
| Assembly.ChapterIdsDistinct | chunk_chapters.py:132-147 | Ids are distinct within a chapter. |
| Assembly.ChapterRecordsSnoc | chunk_chapters.py:132-147 | One more scene appends exactly that scene's records. |
| Assembly.VolumeRecordsAppend | chunk_chapters.py:116-148 | The volume's records are the concatenation of the chapters' records, in index order. |
| Assembly.VolumeRecordSource | chunk_chapters.py:116-148 | Every record of the volume comes from a readable index entry and carries that entry's order and title. |
| Assembly.SkippedChapter | chunk_chapters.py:117-123 | An entry without a file name, with an empty one, or whose file is missing adds no record. |
| Assembly.ExampleIds | chunk_chapters.py:132-147 | For order 1, the chapter `"Para A.\n\n***\n\nPara B."`, with the split of `Scenes.ExampleSplit`, gives the records `1_0_0` and `1_1_0`. |
| Assembly.ChunkId | chunk_chapters.py:136 | The id: the order in decimal (with a minus sign when negative), the scene index and the sub-chunk index, joined by `_` (a definition; `ChunkIdInjective` states its property). |
| Extraction.TitlesExact | extract_entities.py:66 | A name is in the reference list exactly when some entry has it as its title. |
| Extraction.TitlesAppend | extract_entities.py:66 | The titles keep input order: the list of a concatenation is the concatenation of the lists. |
| Extraction.KnownCharacters | extract_entities.py:65-67 | The reference string is the titles joined by `", "` (a definition; `TitlesExact` and `TitlesAppend` state which titles, in which order). |
| Extraction.UntitledIgnored | extract_entities.py:65-67 | Entries without a title contribute nothing; with none titled, the reference string is empty. |
| Extraction.Truncated | extract_entities.py:83 | The slice keeps `min(len, 100000)` characters and is a prefix of the list. |
| Extraction.ConstructPrompt | extract_entities.py:69-100 | The prompt holds the scene text unchanged and a prefix of the reference list at most 100000 long. |
| Extraction.PromptIgnoresTail | extract_entities.py:83 | Two reference lists that agree on their first 100000 characters give the same prompt. |
| Extraction.RenderPrompt | extract_entities.py:69-100 | The template text before the reference list, between it and the scene, and after the scene, as the f-string gives it with `{{`/`}}` as braces (a definition). |
| Extraction.PromptKeepsShortList | extract_entities.py:69-100 | A reference list within the limit appears whole in the rendered prompt, between the fixed template parts. |
| Extraction.MockCharacters | extract_entities.py:27-34 | The mock reports Erin Solstice exactly when the text contains "Erin", Dragon exactly when it contains "Dragon", and Goblins exactly when it contains "Goblins", and nothing else. |
| Extraction.MockGenerateContent | extract_entities.py:25-39 | The mock's answer is the serialised mock value and holds no backtick. |
| Extraction.MockOrder | extract_entities.py:29-34 | The mock's characters come in the order Erin, Dragon, Goblins, each at most once. |
| Extraction.MockTickFree | extract_entities.py:36-39 | The mock's value, with its single location The Wandering Inn, holds no backtick in any key or string. |
| Extraction.DumpsTickFree | extract_entities.py:36-39 | Serialising a value without backticks produces no backtick. |
| Extraction.MockUnfenced | extract_entities.py:36-39 | The fence cleanup leaves the mock's output unchanged. |
| Extraction.MockNeverFails | extract_entities.py:141-142 | In mock mode the content is always the mock output; no failure occurs. |
| Extraction.CleanFences | extract_entities.py:158-159 | The cleanup never lengthens the content, and content without "```json" is unchanged. |
| Extraction.NoFenceLeft | extract_entities.py:159 | Removing every "```" leaves none, even where removals bring backticks together. |
| Extraction.CleanFencesRemovesFences | extract_entities.py:158-159 | After the cleanup of a fenced answer, no "```" remains. |
| Extraction.CleanFencesIdempotent | extract_entities.py:158-159 | Cleaning twice is cleaning once. |
| Extraction.RunExtractionBatch | extract_entities.py:102-196 | Without a chunks file, nothing happens. Otherwise the resumed records survive as a prefix, followed by the new records. The saves are the checkpoints and then the final save. The prompts sent and `count` are as specified. |
| Extraction.Advance | extract_entities.py:126-187 | One iteration appends the chunk's outcome. It saves exactly when the new total is a multiple of 5, and logs a prompt for every model call. |
| Extraction.Eligible | extract_entities.py:128 | The chapter filter: the title is "1.00" or starts with "1.00" (a definition). |
| Extraction.OutcomeSpec | extract_entities.py:128-176 | A chunk yields a record exactly when it passes the filter and resume check and the call succeeds. The record carries the chunk's id, chapter order and scene index. |
| Extraction.ParseFailureRecorded | extract_entities.py:162-176 | Unparsable content gives the record `{"error": "Invalid JSON", "raw": content}` for the cleaned content, and the batch goes on. |
| Extraction.SourcesSpec | extract_entities.py:169-176 | The k-th new record is the outcome of one definite chunk, its source. |
| Extraction.SourcesIncrease | extract_entities.py:126-176 | The sources strictly increase, so new records are in chunk order. |
| Extraction.SourcesComplete | extract_entities.py:126-176 | Every chunk with an outcome is a source: no record is dropped. |
| Extraction.SkippedChunk | extract_entities.py:122-133 | A chunk outside the chapter filter, or whose id was among the resumed ids, is the source of no record. |
| Extraction.NewIds | extract_entities.py:122-176 | An id is among the new records exactly when a chunk with that id had an outcome. |
| Extraction.FailedChunkRetried | extract_entities.py:139-193 | With unique chunk ids, a chunk whose call failed is selected again by a run seeded with this run's records. |
| Extraction.ParseFailureNotRetried | extract_entities.py:162-176 | A chunk whose answer did not parse is recorded, so a seeded run does not select it again. |
| Extraction.NoneSelected | extract_entities.py:126-133 | When no chunk is selected, nothing is appended and no call is made. |
| Extraction.ResumeIdempotent | extract_entities.py:122-133 | After a run without call failures, a run seeded with its records appends nothing and calls nothing, whatever its model and reference list. |
| Extraction.SnapshotCount | extract_entities.py:179-180 | The number of checkpoints is the number of multiples of 5 passed as the total grows from the resumed count to the final count. |
| Extraction.SnapshotsArePrefixes | extract_entities.py:176-180 | Each checkpoint is a prefix of the final records, longer than the resumed part, with a multiple of 5 records. Checkpoints grow strictly. |
| Extraction.TwelveFromEmpty | extract_entities.py:179-196 | From no records, 12 new records give exactly 3 saves: after records 5 and 10, and the final one. |
| Extraction.ResumedCheckpoint | extract_entities.py:121-180 | Resuming from 3 records, 2 new records give one checkpoint of all 5, because the rule tests the total. |
| Filenames.RemoveForbidden | scrape_chapters.py:14 | A character survives exactly when it is not one of `<>:"/\|?*`; the result is no longer than the input. |
| Filenames.RemoveForbiddenAppend | scrape_chapters.py:14 | Removal works character by character, so the surviving characters keep their order. |
| Filenames.ReplaceSpaces | scrape_chapters.py:15 | The length is kept, and each space becomes an underscore while every other character stays in place. |
| Filenames.CleanFilename | scrape_chapters.py:12-15 | The result holds no forbidden character and no space, has no leading or trailing whitespace, and is no longer than the title. |
| Filenames.CleanFilenameChars | scrape_chapters.py:14-15 | Every character of the result is a non-forbidden character of the title, or an underscore. |
| Filenames.CleanFilenameIdempotent | scrape_chapters.py:12-15 | Cleaning a cleaned name changes nothing. |

## Left out

- File I/O is not modelled: `load_chapter`, `load_json`, `save_json`, the
  `os.path.exists` checks and the `chunks.json` write. Files are inputs, and
  saves are a log of snapshots.
- A failing `save_json` is not modelled. Inside the `try` block it would
  skip `count += 1` for that chunk.
- The language-model client, the `.env` loading and the choice of
  `USE_MOCK` are not modelled. Only their results enter, through `Env`.
- `time.sleep` pacing and backoff are left out; they change no state.
- Console output is left out.
- The network scrapers and the API probe scripts are outside the core.
- Python's regular-expression semantics for `re.split` are not modelled:
  `reSplit` is an oracle, and `IsReSplitOf` states only the shape of its
  output, not which matches `re` picks.
- Unicode is not modelled: whitespace is a fixed ASCII set, and there is
  no encoding.
- The `ensure_ascii` escaping of `json.dumps` is not modelled, nor the
  escaping of control characters. Only `"` and `\` are escaped.
- All records are appended chapter by chapter. In the source, `all_chunks`
  grows record by record, with the same final value.
- The model call is a fixed function of the prompt: within one run, two
  selected chunks with the same text get the same answer, or both fail.
  The real call (extract_entities.py:146-155) depends on the network, quotas
  and sampling, and promises no such thing. No proved property relies on
  it: the per-chunk hypotheses name that chunk's answer only, and
  `ResumeIdempotent` lets the second run have any model call.
- Extraction.RunExtractionBatch: does not render the prompt
  text. It passes the structured `Prompt` to the model call, and
  `RenderPrompt` gives the text.
- A chunk record whose `chapter_title` is missing is not modelled. The
  source would read it as `"None"`, which the filter rejects.
