# Web page summarizer: sanitizer, document registry and summary prompt

The service takes a URL, fetches the page, turns its HTML into plain text,
registers the URL as a file, splits the text into chunks, and stores the
chunks in a vector table tagged with the file's id. It then asks a language
model to summarize the file from the two stored chunks that are most similar
to the request. This project models three pieces of that pipeline in Dafny
and proves properties about them:

- **The sanitizer** of `getContent` (`content.dfy`, `content_properties.dfy`,
  `content_examples.dfy`). The page body is the input; the fetch is not
  modelled. An empty body comes back empty. Any other body goes through six
  global replacements, in order; the first four ignore case and the last two
  do not:
  1. inline `style="…"` attributes are removed;
  2. `<style>` blocks are removed;
  3. `on…="…"` event-handler attributes are removed;
  4. `<script>` blocks are removed, except those whose opening tag names
     `application/ld+json`;
  5. every remaining tag is removed;
  6. every run of whitespace becomes one space.

  Each pattern is a matcher written out by hand (`StyleAttributeEnd`,
  `StyleBlockEnd`, `EventHandlerEnd`, `ScriptBlockEnd`, and two inline in
  `MatchEnd`). The two block matchers share `ElementRestEnd`, the part
  after the opening tag's name; `MarkedBeforeClose` is the ld+json
  lookahead. `Matches` is the table of a pattern's match at every
  position. `Scan` is JavaScript's leftmost, non-overlapping global replace
  driven by such a table, and `ReplaceFrom` runs it for one pattern.
- **`saveFile`** (`file_service.dfy`). `Store` is a class holding:
  - the `files` rows;
  - the database's id counter;
  - the append-only `documents` records.

  Its `SaveFile` method is proved to implement the pure `SaveFileSpec`, and
  the lemmas state what `saveFile` promises about that function. The text
  splitter is a parameter. So is the outcome of each remote call that can
  fail (`Faults`). A vector write that fails may already have stored some of
  the records (`Faults.written`), and nothing is rolled back.
- **`getSummarization`** (`summarization.dfy`). This covers:
  - the retriever: the file's records, best two by similarity;
  - the system template with `{context}` filled in;
  - the user message, which is the fixed format string;
  - the model's answer, returned unparsed.

  The similarity score, the formatting of documents into text and the model
  are parameters.

`wrappers.dfy` holds the `Option` and `Result` types.

Some behaviours of the code differ from what a reader might expect, and the
model follows the code:
- **A body of whitespace only.** One might expect `""`. The body is not
  empty, so it passes the empty check and comes out as `" "`
  (`WhitespaceOnlyBody`).
- **The registry.** There is no retry after a failed insert: the error is
  rethrown.
- **The lookup.** It returns early only when exactly one row matches the URL
  and that row's id is truthy. With no row or with several rows, the code
  inserts another row (`DuplicatedUrlKeepsGrowing`).
- **The retriever's query.** It is the format string the chain is invoked
  with, not anything about the file; only the `file_id` filter ties it to the
  file.
- **The context.** One might expect the records' texts concatenated. It is
  whatever the library's document formatter makes of the records, and that
  formatter is a parameter here.

## Model

| member | source | states |
|---|---|---|
| ContentService.Sanitize | src/services/content.ts:10-21 | an empty body yields the empty text, and the text is never longer than the body |
| ContentService.MatchEnd | src/services/content.ts:13-21 | a match of any of the six patterns (`StyleAttributeEnd`, `StyleBlockEnd`, `EventHandlerEnd` and `ScriptBlockEnd` for the first four) is non-empty and lies within the text, so every global replace makes progress |
| ContentService.ReplaceFrom | src/services/content.ts:12-21 | a global replace (`Scan` over the pattern's table of matches, `Matches`) never lengthens the text, since every match is non-empty and every replacement is at most one character |
| ContentService.SameLetterMeans | src/services/content.ts:13-17 | under the case-insensitive flag two characters match exactly when they are equal or are the two cases of one ASCII letter |
| ContentService.CiAtMeans | src/services/content.ts:13-17 | a case-insensitive occurrence of a literal is exactly a letter-by-letter agreement under folding, within the text |
| ContentService.IndexOf | src/services/content.ts:13-20 | a greedy "anything but c, then c" stops at the first c at or after the start, and fails exactly when there is none |
| ContentService.FindCi | src/services/content.ts:14-17 | a lazy "anything, then the literal" stops at the nearest occurrence, and the lookahead finds the marker exactly when one lies in the window |
| ContentService.SpaceEnd | src/services/content.ts:15-21 | a whitespace run taken greedily is maximal: every character in it is whitespace and the next one is not |
| ContentService.WordEnd | src/services/content.ts:15 | the attribute name after `on` is the maximal run of word characters |
| ContentService.ThroughChar | src/services/content.ts:13-20 | a match ends just after the first closing character, with none of it before |
| ContentService.ThroughLit | src/services/content.ts:14-17 | a block ends just after the nearest closing tag, in any case, with no earlier one |
| SanitizerProperties.KeepUntil | src/services/content.ts:12-21 | a stretch where the pattern does not match is copied unchanged |
| SanitizerProperties.NoMatchNoChange | src/services/content.ts:12-21 | a text where the pattern matches nowhere is returned unchanged |
| SanitizerProperties.CharsFrom | src/services/content.ts:12-21 | a replace introduces no character that is not in its input or in the replacement |
| SanitizerProperties.TagPassLeavesNoTag | src/services/content.ts:20 | after the tag pass, no `<` is followed anywhere later by a `>` |
| SanitizerProperties.CollapseKeepsNoTag | src/services/content.ts:21 | collapsing whitespace cannot make a `<`…`>` pair appear |
| SanitizerProperties.CollapseFrom | src/services/content.ts:21 | after the whitespace pass the only whitespace is the plain space and no two whitespace characters are adjacent |
| SanitizerProperties.CollapsedUnchanged | src/services/content.ts:21 | a text already collapsed is left exactly as it is |
| SanitizerProperties.CollapseIdempotent | src/services/content.ts:21 | the whitespace pass applied to its own output changes nothing |
| SanitizerProperties.TagDropped | src/services/content.ts:20 | a `<` up to the first `>` is deleted and the scan resumes after it |
| SanitizerProperties.PlainTextKept | src/services/content.ts:14-20 | the style-block, script and tag passes copy text without `<` unchanged |
| SanitizerProperties.TagPassKeepsBody | src/services/content.ts:20 | of an opening tag, a body without `<` and a closing tag, only the body survives the tag pass |
| SanitizerProperties.StyleAttributeMatch | src/services/content.ts:13 | the style-attribute pattern matches at a position exactly when `style="` (any case) starts there, and the match ends just after the next `"` |
| SanitizerProperties.StyleAttributeRemoved | src/services/content.ts:13 | such an attribute is deleted and the scan resumes after its closing quote |
| SanitizerProperties.StyleBlockRemoved | src/services/content.ts:14 | a `<style` opening tag (any case) is matched from there through the nearest `</style>` after its first `>`, and that stretch is deleted |
| SanitizerProperties.UnclosedStyleKept | src/services/content.ts:14 | a style opening tag with no closing tag after it is not matched |
| SanitizerProperties.HandlerMatch | src/services/content.ts:15 | the event-handler pattern matches at a position exactly when there follow a whitespace run, `on` (any case), one or more word characters, `="` and the next `"`, and the match ends at that quote |
| SanitizerProperties.HandlerRemoved | src/services/content.ts:15 | such an attribute, with the whitespace before it, is deleted and the scan resumes after its closing quote |
| SanitizerProperties.ScriptBlockRemoved | src/services/content.ts:16-19 | a script block whose opening tag is not marked ld+json is deleted through the nearest closing tag after that opening tag |
| SanitizerProperties.UnclosedScriptKept | src/services/content.ts:16-19 | a script block with no closing tag after it is not removed by the script pass |
| SanitizerProperties.LdJsonScriptNotMatched | src/services/content.ts:17 | a script tag naming `application/ld+json` (any case) before its first `>` is not matched |
| SanitizerProperties.LdJsonScriptKept | src/services/content.ts:16-19 | such an opening tag, when no other `<` lies inside it, is copied whole by the script pass |
| SanitizerProperties.QuotelessUntouched | src/services/content.ts:13-15 | text without a double quote is left unchanged by the style-attribute and event-handler passes |
| SanitizerProperties.SpaceFreeKept | src/services/content.ts:21 | the whitespace pass copies a stretch without whitespace unchanged |
| SanitizerProperties.SpaceRunCollapsed | src/services/content.ts:21 | a maximal whitespace run becomes exactly one space |
| SanitizerProperties.SanitizedHasNoTag | src/services/content.ts:12-21 | the text returned for any body contains no `<` followed later by `>` |
| SanitizerProperties.SanitizedIsCollapsed | src/services/content.ts:12-21 | the text returned for any body has only single plain spaces as whitespace |
| SanitizerProperties.MarkupPassesSkipWhitespace | src/services/content.ts:13-20 | none of the five markup passes changes a text made of whitespace only |
| SanitizerProperties.WhitespaceOnlyBody | src/services/content.ts:10-21 | a non-empty body of whitespace only yields a single space, not the empty text |
| SanitizerExamples.BonusAttributeCut | src/services/content.ts:15 | in `<a bonus="x">` the handler pattern matches the `onus="x"` inside the attribute name, leaving `<a b>` |
| SanitizerExamples.HelloHasNoStyleBlock | src/services/content.ts:14 | the style-block pass leaves the page between `<html>` and `</html>`, which holds a script between "Hello" and " World", unchanged |
| SanitizerExamples.HelloScriptRemoved | src/services/content.ts:16-19 | the script pass deletes that page's script block, tags and code, and keeps the rest |
| SanitizerExamples.HelloTagsRemoved | src/services/content.ts:20 | the tag pass then leaves only "Hello World" |
| SanitizerExamples.HelloWorldPage | src/services/content.ts:10-21 | the whole page sanitizes to "Hello World" |
| SanitizerExamples.LdJsonPageKeptByScriptPass | src/services/content.ts:16-19 | a script block typed `application/ld+json` survives the script pass whole |
| SanitizerExamples.LdJsonPageKeepsData | src/services/content.ts:10-21 | a page holding only an ld+json script with `{}` sanitizes to `{}`: the structured data is kept and only its tags go |
| SanitizerExamples.QuotedStyleSanitized | src/services/content.ts:12-21 | in the code's order, `style="<style>"x</style>` sanitizes to `x`: the attribute pass runs first and takes the `<style>` in its value with it |
| SanitizerExamples.SwappedPassesDiffer | src/services/content.ts:13-14 | with the style-block pass run before the attribute pass, the same text becomes `style="`, so the order of the passes matters |
| FileService.Matching | src/services/file.ts:24-27 | the rows returned for a URL are exactly the table's rows with that URL, as many as the URL has rows |
| FileService.Lookup | src/services/file.ts:24-28 | `.single()` yields a row exactly when the URL has exactly one row, and that row is in the table with that URL |
| FileService.Tag | src/services/file.ts:45-48 | a record keeps its chunk's text and metadata, gains `file_id`, and `file_id` holds the new id even when the chunk already had one |
| FileService.TagChunks | src/services/file.ts:45-48 | one record per chunk, in chunk order, each tagged from its chunk |
| FileService.TagChunksCount | src/services/file.ts:45-48 | every record made for a file's chunks carries that file's id |
| FileService.SaveFileSpec | src/services/file.ts:23-57 | a call adds no row or exactly the row `{url}` with the next id, and never removes or changes a record already in `documents` |
| FileService.Store.Insert | src/services/file.ts:32-36 | the insert appends one row with the next id and the URL, returns it, and touches nothing else |
| FileService.Store.AddDocuments | src/services/file.ts:50-54 | records tagged with the newest row's id are appended to `documents` in order, the rows are untouched, and the store stays valid |
| FileService.Store.SaveFile | src/services/file.ts:23-57 | the store's new state and the returned row or thrown error are those of `SaveFileSpec`, and the store stays valid |
| FileService.SaveFileKeepsValid | src/services/file.ts:23-57 | ids stay positive, increasing and below the counter, and every record's `file_id` names a row of `files`, whichever way the call ends |
| FileService.EarlyReturnWritesNothing | src/services/file.ts:24-30 | a URL whose lookup succeeds with a truthy id gets that row back with no insert and no record written |
| FileService.InsertsOneRow | src/services/file.ts:30-36 | when the lookup fails or the id is falsy, exactly one row `{url}` is inserted with the next id and returned |
| FileService.InsertErrorWritesNothing | src/services/file.ts:38 | an insert error is thrown with nothing written and no splitting |
| FileService.OneRecordPerChunk | src/services/file.ts:44-50 | the new file gets one record per chunk, appended in chunk order after the existing records, with the chunk's text and metadata and the new id |
| FileService.NewFileHasOneRecordPerChunk | src/services/file.ts:44-54 | the new id is fresh, so after the call the file has exactly as many records as chunks |
| FileService.SecondCallChangesNothing | src/services/file.ts:24-30 | once a call has succeeded and left one row for the URL, a second call returns the same row and changes nothing |
| FileService.LookupIsTheRow | src/services/file.ts:24-28 | a URL with exactly one row is looked up to that row |
| FileService.DuplicatedUrlKeepsGrowing | src/services/file.ts:24-36 | a URL with two or more rows is never found again, so each later call that gets through its insert adds another row |
| FileService.FailedWriteIsNotRepaired | src/services/file.ts:30-56 | a vector write that fails after the insert keeps the row, keeps the records stored before the failure (fewer than the chunks when it failed early) and throws; the next call returns that row without writing the missing records |
| Summarization.FilterByFile | src/services/file.ts:66-67 | the retriever's candidates are exactly the records tagged with the file's id, as many as there are |
| Summarization.BestIndex | src/services/file.ts:66-69 | the candidate chosen first scores at least as high as every other |
| Summarization.TopK | src/services/file.ts:66-69 | up to k candidates, best first, drawn from the candidates, with no skipped candidate scoring above a taken one |
| Summarization.Retrieve | src/services/file.ts:66-69 | the retriever returns only records of the file, drawn from the store, two of them or all when fewer |
| Summarization.RetrieverStaysInFile | src/services/file.ts:66-69 | the retriever returns only that file's records: two of them, or all when fewer, best first and outscoring every record skipped |
| Summarization.Substitute | src/services/file.ts:71-78 | filling a placeholder with itself gives the template back |
| Summarization.SubstituteNothing | src/services/file.ts:71-78 | a template that does not contain the placeholder's first character (for these templates, no `{` at all) is left unchanged |
| Summarization.SubstituteAfter | src/services/file.ts:71-78 | text before the placeholder is kept and the placeholder becomes the value |
| Summarization.SystemMessageText | src/services/file.ts:71-77 | the system message is the fixed instructions followed by the retrieved text |
| Summarization.HumanMessageText | src/services/file.ts:78-84 | the user message is the chain's input, unchanged |
| Summarization.Prompt | src/services/file.ts:71-80 | the prompt is two messages: the system message is the fixed instructions followed by the context, and the user message is the input as it is |
| Summarization.GetSummarization | src/services/file.ts:59-111 | the summary is the model's answer, unparsed, to the fixed instructions followed by the file's retrieved records as text, with the fixed format string as the user message |
| Summarization.OtherFilesDoNotMatter | src/services/file.ts:66-67 | records added for other files do not change a file's summary |

## Left out

- The HTTP fetch in `getContent` (src/services/content.ts:6-8): the body is the sanitizer's input.
- A response body that is not a string, such as JSON that axios has already parsed: the model takes the body as text.
- JavaScript strings are UTF-16 code units, while Dafny's are code points. A character outside the Basic Multilingual Plane is two units there and one here. The classes `[^"]*`, `[^>]*` and `[\s\S]*?` do match such a character, unit by unit. But every match starts and ends on an ASCII character or a `\s` character, never on half of a pair, so the same stretches are removed and only lengths counted in units differ.
- ContentService.SameLetterMeans: folding (`Upper`) covers ASCII letters only. Without the `u` flag no character outside ASCII folds onto an ASCII letter, and every letter of the six patterns is ASCII, so this covers every match.
- The splitter's internals (src/services/file.ts:40-44) are not part of this model. It is a parameter from text to chunks; its separator list and chunk sizes are not represented.
- The embeddings, the Supabase client, the table schema (`created_at` included) and the vector store's internals are not part of this model. In `saveFile` their failures are the `Faults` flags and their results are the rows and records.
- FileService.Lookup: any lookup failure other than the row count (the network, a timeout) is the `lookupFails` flag. Like a count other than one, it leads to an insert.
- Summarization.TopK: the vector store's ranking is an integer score given as a parameter. Floating-point similarity and the store's order among equal scores are not modelled; ties go to the earlier record.
- Summarization.FilterByFile: the filter compares the text of `file_id`, so in the database a record whose `file_id` is the string form of the id would match too. The model matches numeric ids only, which is what `saveFile` writes.
- Summarization.Substitute: does not model the template library's parser, with its brace escapes and its errors on unbalanced braces. Both templates here have one placeholder and no other braces, and there the two agree.
- Summarization.GetSummarization: a failing query embedding, similarity call or model call makes the chain reject (src/services/file.ts:109), and the caller gets an error instead of a summary. The model has no failure path here: the similarity, the formatter and the model are total parameters.
- `formatDocumentsAsString`, the language model and the string output parser are parameters. The parser hands back the model's text as it is.
- The minimum lengths the format string asks for are requested, never checked, and nothing models them.
- The race between two concurrent first calls for the same URL is not modelled; every call is atomic here. Neither is any retry, since the code has none.
- The HTTP handler (src/pages/api/content.ts) and the page (src/pages/index.tsx) are not part of this model.
