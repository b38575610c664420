# DataNotes sticky-note pipeline in Dafny

DataNotes turns interview transcripts into sticky notes. An uploaded document's
text is cut into windows of at most 4000 characters, each window ending after a
sentence-final period where it can. Each window goes to a text-completion
service with a fixed three-message prompt. Each reply is parsed by a regular
expression into notes with a source, a content and an insight. The notes of all
windows are collected in order; a window whose request fails is skipped, and an
optional progress callback receives each window's notes as they arrive.
`processRawData` then files every note under the document's id. Two small pure
helpers of the user interface are modelled as well: `truncateText` and the
note-type colour table with the level-0 row filter of the visualization.

Modules, one per concern of the source:

- `JsText` (js_text.dfy): the JavaScript string operations the code relies on:
  `trim`, the classes `\s` and `\d`, `lastIndexOf` for one character, and the
  decimal text of a chunk number.
- `Chunker` (chunker.dfy): where each window ends and how the next one starts.
- `PromptBuilder` (prompt_builder.dfy): the three messages sent for a window.
- `CompletionClient` (completion_client.dfy): `callGPT4API` as an oracle.
- `ResponseParser` (response_parser.dfy): the global regular expression,
  including the backtracking of its first two groups, its leftmost
  non-overlapping search, and the notes built from the matches.
- `GptService` (gpt_service.dfy): the window loop of
  `processAndGenerateStickies`, proved against the run it produces, plus the
  properties of that run.
- `DataProcessing` (data_processing.dfy): `processRawData`.
- `BlockRoundTrip` (block_round_trip.dfy): a block written in the format the
  prompt asks for parses back to exactly one note holding its fields.
- `StickyNote` (sticky_note.dfy) and `Visualization` (visualization.dfy): the
  pure helpers.

The completion service and the clock that gives notes their ids and
timestamps are parameters (`GptService.Env`). The progress callback is modelled
by the list of batches it receives.

Behaviour of the code a reader might not expect, which the model follows:

- No overlap between windows. `OVERLAP_SIZE` is declared as "characters of
  overlap", but line 88 computes `max(startIndex - OVERLAP_SIZE, endIndex)`
  right after setting `startIndex = endIndex`, so the next window starts at
  the previous end. A 9000-character text without periods therefore gives
  `[0,4000)`, `[4000,8000)`, `[8000,9000)` (`Chunker.NineThousandWithoutPeriods`),
  not overlapping windows.
- Pulling back to a period also applies to the final window. Nothing checks
  that the candidate end is short of the text's end, so `"Hello. World"` is
  sent as `"Hello."` and `" World"` (`Chunker.FinalWindowPulledBack`).
- A period exactly at the candidate end hides every earlier one.
  `lastIndexOf('.', endIndex)` finds it, and the guard then rejects it, so
  the window is a hard cut (`Chunker.WindowEndRule`).
- `processRawData` stamps `documentId` after the whole run, not per window. It
  passes no progress callback.
- The parser accepts any white space, not just one line break, between the
  lines of a block. It also backtracks inside the first two groups, so a
  block can match across lines in ways the line grammar does not describe.
  The model follows the expression itself.

## Model

| member | source | states |
|---|---|---|
| JsText.RunEnd | js/services/gptService.js:97 | the end of the greedy run of a character class (`\s*`, `\d+`, `[^\n]+`) from a position lies between that position and the end of the text; which end it is, is fixed by `JsText.RunEndIsLongest` |
| JsText.RunEndIsLongest | js/services/gptService.js:97 | a greedy `\s*`, `\d+` or `[^\n]+` stops at the first character outside its class, and that end is the only one with this property |
| JsText.RunEndIs | js/services/gptService.js:97 | a run bounded by a character outside the class is the one the greedy quantifier takes |
| JsText.TrailStart | js/services/gptService.js:103-105 | the trailing white space of a slice starts at the returned index: every later character is white space, the one before is not |
| JsText.Trim | js/services/gptService.js:29 | `trim` never lengthens its input and the result has no white space at either end |
| JsText.TrimRemovesOnlyWhiteSpace | js/services/gptService.js:103-105 | `trim` returns the slice of the input after its leading white space, and only white space follows that slice |
| JsText.TrimOfTrimmed | js/services/gptService.js:103-105 | a string with no white space at either end is left unchanged by `trim` |
| JsText.TrimIdempotent | js/services/gptService.js:29 | trimming the already trimmed reply again changes nothing |
| JsText.LastIndexAtOrBefore | js/services/gptService.js:46 | the backward search returns an index holding the character, or -1, and no later index up to the start position holds it |
| JsText.LastIndexOf | js/services/gptService.js:46 | `lastIndexOf(c, position)` with the position clamped: the greatest index at or before it holding `c`, or -1 |
| JsText.NatToString | js/services/gptService.js:56 | `${chunkIndex}` is a non-empty digit string without a leading zero |
| JsText.DecimalRoundTrip | js/services/gptService.js:56 | reading the decimal text of a number back gives the number |
| Chunker.WindowEnd | js/services/gptService.js:43-49 | a window ends strictly after its start and no later than `min(start + 4000, length)` |
| Chunker.WindowEndRule | js/services/gptService.js:43-49 | the window-end rule in full: a period at the candidate end, or no period strictly inside, gives a hard cut; otherwise the window ends just after the last period strictly inside, so it ends with `.` |
| Chunker.NextStart | js/services/gptService.js:84-88 | the next window starts exactly at the previous end: the declared overlap has no effect |
| Chunker.Windows | js/services/gptService.js:39-51 | there are no windows exactly when the start is at the end of the text, and every window lies inside the text and is non-empty |
| Chunker.WindowsStep | js/services/gptService.js:84-88 | the windows from a start are the window there followed by the windows from its end |
| Chunker.WindowsTile | js/services/gptService.js:39-51 | the windows tile the text: the first starts at the start, the last ends at the end of the text, each starts where the previous ended, and each is at most 4000 long and ends where the window-end rule says |
| Chunker.WindowTexts | js/services/gptService.js:51 | one chunk, the slice `rawData.slice(startIndex, endIndex)`, per window; together they give back the text (`Chunker.WindowsReassemble`) |
| Chunker.WindowTextsAt | js/services/gptService.js:51 | the `k`-th chunk is the slice of the `k`-th window |
| Chunker.WindowsReassemble | js/services/gptService.js:39-51 | the chunks put back together are exactly the text: nothing is lost and nothing repeated |
| Chunker.HardCutsWithoutPeriods | js/services/gptService.js:43-49 | with no period in the text, the `k`-th window is `[start + 4000k, min(start + 4000(k+1), length))` |
| Chunker.NineThousandWithoutPeriods | js/services/gptService.js:4-5 | 9000 characters without periods give `[0,4000)`, `[4000,8000)`, `[8000,9000)` |
| Chunker.FinalWindowPulledBack | js/services/gptService.js:46-49 | the final window is pulled back to a period too: `"Hello. World"` gives `[0,6)` and `[6,12)` |
| PromptBuilder.ChunkMessages | js/services/gptService.js:53-66 | the prompt is three messages with roles system, user and user; the first user message is the chunk verbatim and the second is the fixed format instruction |
| PromptBuilder.ChunkMessagesNameTheChunk | js/services/gptService.js:56 | the system message names the chunk number, and reading it back gives that number |
| PromptBuilder.PromptsNameTheirChunk | js/services/gptService.js:56 | prompts for different chunk numbers differ, whatever their chunks |
| CompletionClient.CallGPT4API | js/services/gptService.js:7-30 | the call succeeds exactly when the service completes, and then returns the completion's content trimmed; a non-ok status fails with that status; a rejected request or an unexpected body fails as a transport error |
| ResponseParser.NoNewlineBefore | js/services/gptService.js:97 | a prefix of a `[^\n]+` run holds no line break |
| ResponseParser.Capture | js/services/gptService.js:103-105 | a captured group is as long as its span |
| ResponseParser.InsightFrom | js/services/gptService.js:97 | when `\s*INSIGHT: ([^\n]+)` matches after the content group, that group ends after it starts and at or before where it was tried, only white space and then `INSIGHT: ` lie between the content group and the last group, and the last group is the rest of its line |
| ResponseParser.ContentFrom | js/services/gptService.js:97 | a match of the part after `SOURCE: ` has its groups in order, each non-empty, the last group is the rest of its line, and it is the rest of the expression matched right after the first group (`ResponseParser.ContentAfter`) |
| ResponseParser.ContentAfter | js/services/gptService.js:97 | when `\s*CONTENT: ([^\n]+)\s*INSIGHT: ([^\n]+)` matches after the first group, only white space and then `CONTENT: ` lie between the first and second groups, and only white space and then `INSIGHT: ` between the second and third |
| ResponseParser.HeaderEnd | js/services/gptService.js:97 | when `Sticky Note \d+:\s*SOURCE: ` matches at `p`, the text from `p` to the first group is `Sticky Note `, one or more digits, a colon, white space and `SOURCE: ` |
| ResponseParser.MatchAt | js/services/gptService.js:97 | a match at `p` starts at `p`, begins with `Sticky Note `, has its groups non-empty and in order, and ends within the text; what the matched text is, is stated by `ResponseParser.MatchAtShape` and `ResponseParser.MatchAtIffBlock` |
| ResponseParser.MatchAtShape | js/services/gptService.js:97 | every match is a block of the grammar: header, digits, colon and `SOURCE: ` before the first group; only white space and the next label between groups; each group non-empty and on one line; the last running to the end of its line |
| ResponseParser.BlockHasMatch | js/services/gptService.js:97 | every block of that grammar is matched at its start |
| ResponseParser.MatchAtIffBlock | js/services/gptService.js:97 | the expression matches at `p` exactly when a block of the grammar starts at `p` |
| ResponseParser.HeaderOfBlockShape | js/services/gptService.js:97 | the header of a block is exactly what `Sticky Note \d+:\s*SOURCE: ` matches |
| ResponseParser.InsightFromReaches | js/services/gptService.js:97 | backtracking the content group finds a match whenever one exists at or below where it starts |
| ResponseParser.ContentFromReaches | js/services/gptService.js:97 | backtracking the source group finds a match whenever one exists at or below where it starts |
| ResponseParser.MatchAtCaptures | js/services/gptService.js:97 | each captured group is non-empty and holds no line break |
| ResponseParser.TabulateAt | js/services/gptService.js:100 | the `k`-th attempt is the attempt at position `k` |
| ResponseParser.Attempts | js/services/gptService.js:100 | there is one attempt per position, including the end, and each successful attempt starts at its position |
| ResponseParser.AttemptIsMatchAt | js/services/gptService.js:100 | the attempt at each position is the expression's match anchored there |
| ResponseParser.Search | js/services/gptService.js:100 | a match found from `from` starts at or after `from` and lies within the text |
| ResponseParser.SearchFindsAttempt | js/services/gptService.js:100 | a match the search finds is the attempt at its start |
| ResponseParser.SearchIsLeftmost | js/services/gptService.js:100 | no attempt between `from` and the found match succeeds |
| ResponseParser.SearchNoneIffNoMatch | js/services/gptService.js:100 | the search finds nothing exactly when no attempt from `from` on succeeds |
| ResponseParser.Exec | js/services/gptService.js:100 | `exec` from `lastIndex` returns a match at or after it, within the text |
| ResponseParser.ExecIsLeftmost | js/services/gptService.js:100 | `exec` returns the leftmost match at or after `lastIndex`, and it is the expression's match at its start |
| ResponseParser.ExecNoneIffNoMatch | js/services/gptService.js:100 | `exec` returns null exactly when no position from `lastIndex` on starts a match |
| ResponseParser.Matches | js/services/gptService.js:100 | every match of the global search starts at or after `from`, is well formed and lies within the text |
| ResponseParser.MatchesAreAttempts | js/services/gptService.js:100 | each match of the global search is the attempt at its start |
| ResponseParser.MatchesInOrder | js/services/gptService.js:100 | the matches come left to right and do not overlap |
| ResponseParser.MatchesSkipNothing | js/services/gptService.js:100 | no attempt succeeds before the first match, between two consecutive matches or after the last one; with no match, none succeeds at all |
| ResponseParser.AllMatchesAreMatches | js/services/gptService.js:97-100 | each match of the global expression is the expression's match at its start |
| ResponseParser.AllMatchesInOrder | js/services/gptService.js:97-100 | the matches of the global expression come left to right without overlap |
| ResponseParser.AllMatchesSkipNothing | js/services/gptService.js:97-100 | no position the global expression steps over starts a match |
| ResponseParser.NoteOf | js/services/gptService.js:101-108 | the note built from one match has trimmed source, content and insight, the document name, no document id, and the id and timestamp of its stamp |
| ResponseParser.NotesOf | js/services/gptService.js:101-108 | one note per match |
| ResponseParser.NotesOfAt | js/services/gptService.js:101-108 | the `k`-th note is built from the `k`-th match with the `k`-th stamp |
| ResponseParser.ParsedNotes | js/services/gptService.js:95-116 | the parser returns one note per match of the global expression |
| ResponseParser.ParsedNotesFields | js/services/gptService.js:101-108 | the `k`-th note holds the trimmed groups of the `k`-th match, the document name, no document id, and its own id and timestamp |
| ResponseParser.NotesOfSnoc | js/services/gptService.js:101-108 | one more match appends one more note |
| ResponseParser.MatchesStep | js/services/gptService.js:100 | a successful `exec` moves its match from the matches still to come to those found |
| ResponseParser.ParseStickiesFromResponse | js/services/gptService.js:95-116 | the method returns exactly the parsed notes of the response |
| ResponseParser.CollectNotes | js/services/gptService.js:98-109 | the `exec` loop collects one note per match of the global search, in order, and stops when `exec` returns null |
| ResponseParser.EmptyResponseNoNotes | js/services/gptService.js:111-115 | an empty response gives no notes |
| ResponseParser.NoLabelNoNotes | js/services/gptService.js:97 | a response in which `Sticky Note ` never occurs gives no notes, and no error is raised |
| GptService.ChunkStickies | js/services/gptService.js:68-82 | a window has no outcome (`None`) exactly when its request fails; otherwise its notes are the notes parsed from the trimmed reply, stamped by the clock for that chunk |
| GptService.RunOver | js/services/gptService.js:39-89 | the run over a sequence of windows sends one prompt per window, failed or not, reports at most one batch per window, and none when there is no callback; the loop `GptService.ProcessAndGenerateStickies` is proved equal to it |
| GptService.Record | js/services/gptService.js:69-79 | after a window, the prompt is logged; a failed window adds no notes and no report; a successful one appends its notes, and reports them exactly when there is a callback |
| GptService.RunOverSnoc | js/services/gptService.js:39-82 | the run over one more window is the previous run followed by that window's prompt and outcome, numbered after the earlier windows |
| GptService.ProcessChunk | js/services/gptService.js:53-82 | one pass of the loop body turns the state into the state after that window |
| GptService.ProcessAndGenerateStickies | js/services/gptService.js:32-93 | the loop sends one prompt per window of the text, numbered from 1; it returns the notes of the successful windows in order and reports each successful window's notes to the callback |
| GptService.EmptyDocumentSendsNothing | js/services/gptService.js:39 | an empty document sends no request, reports nothing and returns no notes |
| GptService.RunOverRequest | js/services/gptService.js:51-69 | the `k`-th request is the prompt for the `k`-th window, numbered `k + 1` |
| GptService.PromptAt | js/services/gptService.js:53-66 | the `k`-th prompt carries the `k`-th chunk and names chunk `k + 1` |
| GptService.PromptsCoverText | js/services/gptService.js:39-66 | the chunks sent, put together, are exactly the document, and the `k`-th prompt names chunk `k + 1` |
| GptService.FlattenSnoc | js/services/gptService.js:74 | one more batch appends its notes |
| GptService.ProgressReportsEveryNote | js/services/gptService.js:72-79 | with a callback, the reported batches put together are exactly the returned notes; without one nothing is reported; the notes returned are the same either way, for the same service answers and stamps and a callback that does not modify the notes it receives |
| GptService.UnansweredRunHasNoNotes | js/services/gptService.js:68-82 | when no request is answered, the run returns no notes and reports nothing, though every window was sent |
| GptService.RunNotesFromDocument | js/services/gptService.js:72-74 | every returned note carries the document name, has no document id yet, and has trimmed fields, for a callback that does not modify the notes it receives |
| DataProcessing.AssignDocumentId | js/services/dataProcessing.js:11-14 | every note gets the document id; nothing else changes, and order and number are kept |
| DataProcessing.StampOrRethrow | js/services/dataProcessing.js:7-21 | a pipeline error is passed on unchanged; on success the same notes are returned, each with the document id |
| DataProcessing.ProcessRawData | js/services/dataProcessing.js:4-22 | the result is the run's notes, same number and order, each differing only by the document id; each carries the document name and trimmed fields |
| StickyNote.TruncateText | js/components/StickyNote.js:28-31 | a short text is returned unchanged; a longer one is cut to its first `maxLength` characters followed by `...` |
| StickyNote.TruncateTextBound | js/components/StickyNote.js:30 | the result is never longer than `max(maxLength, 0) + 3`: a negative `maxLength` still gives the three dots |
| StickyNote.TruncateTextIdempotent | js/components/StickyNote.js:28-31 | truncating twice with the same limit is truncating once |
| Visualization.ColorByType | script.js:17-24 | the three known types get their colours, and grey is returned exactly for every other type and for a missing one |
| Visualization.ColorsTellTypesApart | script.js:18-22 | different known types get different colours |
| Visualization.Level0Rows | script.js:48 | the filter keeps exactly the rows whose `level` is the text `0` and never adds rows |
| Visualization.Level0RowsAppend | script.js:48 | the filter keeps the original order: filtering a concatenation filters each part |
| Visualization.Level0RowsIdempotent | script.js:48 | filtering the filtered rows changes nothing |
| BlockRoundTrip.RenderBlock | js/services/gptService.js:64 | a block written in the requested format starts with `Sticky Note ` and ends with its insight, with the length of its four lines; `BlockRoundTrip.ParseBlockRoundTrip` parses it back |
| BlockRoundTrip.Header | js/services/gptService.js:64 | the first line of a block and the next label have the expected length |
| BlockRoundTrip.LineEnd | js/services/gptService.js:97 | `[^\n]+` from the start of a line takes the line up to its line break or the end |
| BlockRoundTrip.BreakBeforeLabel | js/services/gptService.js:97 | `\s*` before a label takes exactly the one line break, and the label follows |
| BlockRoundTrip.HeaderAt | js/services/gptService.js:97 | `Sticky Note \d+:\s*SOURCE: ` matches at the start of a text laid out that way |
| BlockRoundTrip.BlockChars | js/services/gptService.js:64 | a rendered block holds the header, the two labelled lines and the insight, each at its place |
| BlockRoundTrip.HeaderOfBlock | js/services/gptService.js:97 | the header of a rendered block matches and the source group starts right after `SOURCE: ` |
| BlockRoundTrip.FieldLineAt | js/services/gptService.js:97 | a field followed by a line break and a label is taken whole by `([^\n]+)\s*` |
| BlockRoundTrip.SourceOfBlock | js/services/gptService.js:97 | the source group of a rendered block is its source line, followed by the content label |
| BlockRoundTrip.ContentOfBlock | js/services/gptService.js:97 | the content group of a rendered block is its content line, followed by the insight label |
| BlockRoundTrip.LastLineAt | js/services/gptService.js:97 | a last field is taken whole by `([^\n]+)` |
| BlockRoundTrip.InsightOfBlock | js/services/gptService.js:97 | the insight group of a rendered block is its last line |
| BlockRoundTrip.InsightStep | js/services/gptService.js:97 | the insight part matches right after the content group, with no backtracking |
| BlockRoundTrip.ContentStep | js/services/gptService.js:97 | the content and insight parts match right after the source group, with no backtracking |
| BlockRoundTrip.MatchOfLines | js/services/gptService.js:97 | the whole expression matches a text laid out as three labelled lines |
| BlockRoundTrip.BlockMatch | js/services/gptService.js:97 | a laid-out block is matched from its first to its last character, and the groups capture its three fields exactly |
| BlockRoundTrip.ParseBlockRoundTrip | js/services/gptService.js:97-108 | parsing a block written in the requested format gives exactly one note, holding the block's fields trimmed and the document name |

## Left out

- `callGPT4API` internals: the endpoint, headers, API key, model name, the
  `temperature: 0.7` float, and the JSON envelope. The model keeps the three
  outcomes (completed, non-ok status, rejected) and the trim of the content.
- Console logging and the "No sticky notes found" warning. They have no effect
  on results.
- Note ids (`Date.now()` and `Math.random()`) and timestamps (`new Date()`).
  They come from the clock parameter of `Env` as opaque values, one per chunk
  number and note index.
- JavaScript strings are sequences of UTF-16 code units; here a string is a
  sequence of characters. Lengths, `substr` and `lastIndexOf` are counted in
  characters.
- StickyNote.TruncateText: counts characters, not UTF-16 code units. A
  `maxLength` that is not an integer (`NaN`, fractions) is not modelled.
- DataProcessing.ProcessRawData: the run cannot fail: the service's failures
  are caught per window inside the loop, and the callback is absent. So its
  rethrow branch cannot be reached from this model. The rethrow itself is
  modelled and proved by `DataProcessing.StampOrRethrow` on any outcome.
- A progress callback that throws. In the source the call sits inside the
  window's `try` (js/services/gptService.js:68-82), so the error is caught and
  logged, the window's notes stay in the result, and the loop goes on with the
  next window. The model's callback cannot throw. The model's stickies and
  prompts match what the source produces in that case, because the call is the
  last statement in the `try`.
- Sharing of note objects between the progress callback and the result.
  `allStickies.concat(chunkStickies)` (js/services/gptService.js:74) copies
  references, so the callback receives the very objects the run returns. A
  callback that writes to them, as js/components/Dashboard.js:31-33 sets
  `documentId`, changes the returned notes too. The model's callback only
  observes the batches it receives and cannot write to them, so
  `GptService.ProgressReportsEveryNote` and `GptService.RunNotesFromDocument`
  hold only for a callback that does not modify its notes.
- In-place mutation of the note objects by `processRawData`. Notes are values,
  and the updated list is a new sequence with the same order and length. No
  other reference to the notes exists at that point.
- Visualization.ColorByType: does not model inherited object keys such as
  `"constructor"`. In the source these return a non-string value instead of
  grey.
- Visualization.Level0Rows: a row is a map from column names to text, as
  the CSV loader produces it. Non-string `level` values cannot occur.
- `js/services/dataStorage.js`, the DOM and event code (Dashboard, UploadForm,
  DocumentBrowser, app.js, `createStickyNote`), `stickie.js`, and the D3
  rendering, sizing and timers of `script.js`. They are browser plumbing and
  floating-point layout outside the pipeline.
- BlockRoundTrip.ParseBlockRoundTrip: covers blocks laid out one field per
  line, as the prompt asks. The many other layouts the expression also
  accepts are covered only by the general matcher lemmas.
