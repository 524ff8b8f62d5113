# Ollama chat dashboard: the page logic of `script.js`, modelled in Dafny

The dashboard is a single page that talks to a local Ollama server. On load it lists the
installed models into a dropdown, or falls back to `llama2` when the server cannot be
reached. The user types a prompt and sends it. The generate reply is streamed back as
newline-delimited JSON records, and their `response` fragments are appended to an
assistant message as they arrive. Errors are sorted into network, server, missing-model
and generic reports. Task apps pick a preferred model and fill in a prompt template with
its `[placeholder]` selected. The "copy" menu copies the last assistant message or the
whole conversation.

The model has seven modules:

- `Wrappers`: `Option` and `Result`.
- `Text`: the JavaScript string built-ins the script uses, each defined directly or pinned
  down by a contract (`trim`, `split`, `join`, `includes`, `startsWith`, `toLowerCase`,
  `indexOf`, `lastIndexOf`, and decimal rendering of a status code).
- `Errors`: the message of a failed response and the classification chain of
  `handleGenerationError`.
- `Stream`: the reading loop of `streamResponse`. The functional model is `Absorb`,
  `AbsorbLines` and `AbsorbChunks`, with the closed form `Effect` proved equal to it.
  The imperative loops are `ReadLines` and `StreamResponse`, proved against that model.
- `Models`: `fetchModels`, the dropdown option values, the preference search, the task
  apps' preferences and the placeholder range.
- `Transcript`: the response area as a list of child elements, their `textContent`, and
  what the two copy actions take from them.
- `Dashboard`: the class `Dashboard`. It holds the `state` object's fields and the page
  fields the logic reads and writes: status indicator, send button, prompt box and its
  selection, dropdown, and response area. Each function of the script that changes them
  is a method.

Inputs from outside become parameters:
- the tags reply (`TagsReply`);
- the generate reply (`Reply`): refused, or a response with `ok`, status, the decoded
  body chunks, and how the body ended;
- the result of `JSON.parse` on a line (`Parser`);
- the template text of a task app.

The model follows the code as written, including where it surprises:
- An empty model list still counts as connected. The tags request succeeded, so
  `checkOllamaConnection` returns true and only the fallback option is added.
- Chunks are split on their own. A record cut by a chunk boundary is logged twice as
  unparsable and its text is lost (`Stream.LineAcrossChunksIsLost`).
- An error during streaming replaces the whole response area, so the partial assistant
  text is wiped.
- A successful reconnect inside `sendToOllama` does not set `isConnected`, because
  `checkOllamaConnection` never calls `updateUIState`.
- `state.selectedModel` is never written. The request uses the dropdown value read at
  the start of `sendToOllama`. A missing-model report names the dropdown value at the
  time of the error, which may differ if a reconnect refilled the dropdown.

## Model

| member | source | states |
|---|---|---|
| Text.Trim | script.js:204 | the trimmed prompt is empty exactly when the input is all white space; otherwise it starts and ends with a non-space character |
| Text.TrimIsMiddleSlice | script.js:204 | `trim` keeps a middle slice of the input and cuts only white space before and after it |
| Text.Split | script.js:292 | splitting a chunk on newlines gives at least one piece, no piece holds a newline, and joining the pieces with newlines gives the chunk back |
| Text.SplitJoin | script.js:292 | newline-free pieces are recovered exactly from their join (the inverse of `Split`'s round trip) |
| Text.Contains | script.js:322-328 | `includes` holds exactly when the pattern occurs at some index |
| Text.LowerIdempotent | script.js:351-356 | lower-casing twice is lower-casing once, so lower-casing an already lowered option changes nothing |
| Text.IndexOf | script.js:421 | `indexOf('[')` is -1 exactly when there is no `[`; otherwise it is the first index holding one |
| Text.LastIndexOf | script.js:422 | `lastIndexOf(']')` is -1 exactly when there is no `]`; otherwise it is the last index holding one |
| Text.Decimal | script.js:268 | a status renders as a non-empty string of decimal digits |
| Text.DecimalRoundTrip | script.js:268 | reading the rendered digits back gives the status |
| Errors.HttpErrorMessage | script.js:151 | the message `HTTP error! Status: <status>`; `HttpErrorIsServerError` states how it is classified |
| Errors.Explain | script.js:318-331 | the headline and details for a category; `ExplainDetails` and `MissingModelNamesModel` state its properties |
| Errors.Classify | script.js:322-331 | a network phrase wins; otherwise `HTTP error` gives a server error; otherwise `model not found` gives a missing model; anything else is generic (each direction of each test) |
| Errors.ExplainDetails | script.js:318-333 | details are empty exactly for the generic error, so every recognised error gets a second paragraph |
| Errors.HttpErrorIsServerError | script.js:267-268 | the error thrown for any non-`ok` status is classified as a server error |
| Errors.MissingModelNamesModel | script.js:328-330 | a missing-model report names the currently selected model |
| Models.FetchModels | script.js:146-161 | the list is fetched exactly when the tags body was read; a missing `models` field gives the empty list; a non-`ok` status gives `HTTP error! Status: <status>` |
| Models.OptionValues | script.js:164-186 | the dropdown is never empty: one option per model, named after it, or only `llama2` for an empty list |
| Models.LowerAll | script.js:351 | the options are lower-cased one by one, keeping their order and number |
| Models.MatchesIgnoresCase | script.js:351-357 | lower-casing the options before matching does not change which option matches |
| Models.FindIndex | script.js:355-357 | `find` gives the first option containing the preference, ignoring case, or nothing when none does |
| Models.PreferredOption | script.js:354-364 | a chosen value is a non-empty lower-cased option |
| Models.PreferredIsEarliest | script.js:349-369 | nothing is chosen exactly when no preference finds a non-empty option; otherwise the earliest preference that does wins, with its earliest matching option |
| Models.TaskPreferences | script.js:376-415 | preferences are given exactly for the six app names of the `switch`; each asks for two models, `llama2` among them |
| Models.FallbackServesEveryTask | script.js:164-166 | with only the fallback option in the dropdown, every known task app selects `llama2` |
| Models.PlaceholderRange | script.js:421-426 | the pair passed to `setSelectionRange`, if the guard admits it; `PlaceholderRangeGuard` states it |
| Models.PlaceholderRangeGuard | script.js:421-426 | a range is selected exactly when the text holds `[`, from the first `[` to just after the last `]`; the end test never fails, so with no `]` the end is 0 |
| Transcript.Texts | script.js:441-454 | the texts of the response area's children, one per child, in order |
| Transcript.LastAssistantText | script.js:443-450 | the 'last' search; `LastAssistantIsLast` states what it finds |
| Transcript.LastAssistantIsLast | script.js:443-450 | the 'last' copy is empty exactly when no child's text starts with `Assistant:`; otherwise it is such a text with none after it |
| Transcript.LastAssistantStep | script.js:445-450 | one step of the backward search: the current child if it is an assistant text, else the search over the children before it |
| Transcript.Without | script.js:455 | the filter keeps exactly the texts other than the placeholder, and never adds any |
| Transcript.WithoutAppend | script.js:455 | filtering two runs of texts is filtering each and joining the results, so order and repetitions are kept |
| Transcript.WithoutOne | script.js:455 | a single text is kept exactly when it is not the placeholder; with `WithoutAppend` this fixes the filter |
| Transcript.AllText | script.js:453-456 | the 'all' copy: the kept texts joined by blank lines |
| Transcript.Copied | script.js:443-457 | what each copy kind takes: the 'last' search, the 'all' text, or nothing |
| Transcript.AssistantTextIsMarked | script.js:274 | an assistant message's text always starts with `Assistant:` |
| Transcript.LastCopyAfterReply | script.js:272-275 | after an assistant message is appended, the 'last' copy is exactly that message |
| Stream.NonBlank | script.js:292 | the blank-line filter; `NonBlankOne` and `NonBlankAppend` fix it |
| Stream.NonBlankKeeps | script.js:292 | the filter keeps only lines of the chunk, and only the non-blank ones |
| Stream.NonBlankOne | script.js:292 | a single line is kept exactly when it is not blank |
| Stream.NonBlankAppend | script.js:292 | filtering two runs of lines is filtering each and joining the results, so every non-blank line is kept, in order |
| Stream.ChunkLines | script.js:292 | the lines taken from one chunk: its newline pieces, filtered; `ChunkLinesAreLines` and `WholeLines` state them |
| Stream.ChunkLinesAreLines | script.js:292 | every line taken from a chunk is newline-free and not blank |
| Stream.ConcatAppend | script.js:299 | appending fragments in two batches gives the same text as appending them all at once |
| Stream.RunningAppend | script.js:299-300 | the texts shown for two batches of fragments are those of the first batch, then those of the second on top of it |
| Stream.Absorb | script.js:295-306 | one pass of the inner loop's body; `AbsorbEffect` and `AbsorbGrows` state its effect |
| Stream.AbsorbLines | script.js:294-307 | the inner loop over one chunk's lines; `AbsorbLinesEffect` gives its closed form |
| Stream.AbsorbChunks | script.js:283-308 | the outer loop over chunks; `ChunksAreSplitAlone` and `ChunkEffect` state it |
| Stream.AbsorbEffect | script.js:294-306 | one line appends its fragment (if any) to the text, shows the new text once, and logs the line if it does not parse |
| Stream.EffectStep | script.js:294-307 | one more line extends the closed form by that line |
| Stream.AbsorbLinesEffect | script.js:294-307 | reading lines appends exactly their fragments, in order, shows one growing text per fragment, and logs exactly the unparsable lines |
| Stream.FragmentsAppend | script.js:294-307 | the fragments of two runs of lines are those of the first run followed by those of the second |
| Stream.MalformedAppend | script.js:294-307 | the logged lines of two runs are those of the first run followed by those of the second |
| Stream.ReadLastChunk | script.js:283-307 | reading one more chunk is reading its own lines |
| Stream.AbsorbLinesAppend | script.js:294-307 | reading `xs` and then `ys` is reading `xs + ys` |
| Stream.MalformedLineIsSkipped | script.js:295-306 | a line that fails to parse changes neither the text nor what is shown; it is only logged |
| Stream.AbsorbGrows | script.js:298-300 | one line keeps every shown text a proper prefix of the later ones, and the text only grows |
| Stream.AbsorbLinesGrows | script.js:294-307 | over any lines, `fullResponse` only grows and the shown texts stay strictly growing, ending at the current text |
| Stream.ChunksAreSplitAlone | script.js:283-308 | reading chunks is reading each chunk's own lines, one chunk after another |
| Stream.ChunkEffect | script.js:291-307 | a chunk appends exactly the fragments of its own non-blank parsed lines to `fullResponse` |
| Stream.DoneIsNeverRead | script.js:283-308 | two parsers that agree on `response` fields give the same reading, so a record's `done` flag has no effect |
| Stream.Streamed | script.js:255-312 | what `streamResponse` does with a reply; `StreamedText` states its outcome |
| Stream.StreamedText | script.js:255-312 | the stream completes exactly when the response is `ok` and the reader reports done; the text is then every fragment of every chunk's lines, in order, the shown texts are its running prefixes, and the log holds exactly the unparsable lines |
| Stream.ReadLines | script.js:294-307 | the `for` loop over a chunk's lines leaves the text, shown texts and log that the functional model gives |
| Stream.StreamResponse | script.js:255-312 | the method's outcome is the one the functional model gives for the reply |
| Stream.WholeLines | script.js:292 | a chunk of whole, non-blank, newline-terminated lines yields exactly those lines |
| Stream.OneLine | script.js:292 | a single non-blank line yields itself, with or without its newline |
| Stream.TwoRejectedLines | script.js:294-306 | two lines that fail to parse are both logged and leave the text and the shown texts empty |
| Stream.TwoRejectedChunks | script.js:283-307 | two chunks of one unparsable line each log both lines and append nothing |
| Stream.OneFragmentChunk | script.js:283-307 | one chunk holding one record with a non-empty `response` gives that text, shown once |
| Stream.LineAcrossChunksIsLost | script.js:283-307 | a record cut by a chunk boundary is logged as two unparsable halves and its text is lost; the same characters in one chunk give the text |
| Stream.TwoFragmentsThenDone | script.js:255-312 | two `response` records and a `done` record in one chunk give the two fragments joined, shown first as the first fragment alone and then as the whole |
| Dashboard.ToneOf | script.js:338 | the colour for `type`: red for 'error', orange for 'warning', blue otherwise |
| Dashboard.ErrorArea | script.js:337-346 | the response area becomes the coloured message, followed by a details paragraph exactly when the details are not empty |
| Dashboard.GenerationErrorArea | script.js:315-345 | the area `handleGenerationError` leaves; `GenerationErrorShape` states its shape |
| Dashboard.GenerationErrorShape | script.js:315-334 | a generation error shows one red paragraph if it is generic and two otherwise |
| Dashboard.Dashboard.constructor | script.js:13-17 | the page starts unconnected and idle, with the placeholder in the response area and an empty dropdown |
| Dashboard.Dashboard.UpdateUIState | script.js:85-130 | each named state sets its own status, button and `state` fields (and, for `disconnected` and `generating`, the response area) and nothing else; an unknown name changes nothing |
| Dashboard.Dashboard.AddDefaultModel | script.js:164-166 | the dropdown holds only `llama2`, which is selected |
| Dashboard.Dashboard.PopulateModelDropdown | script.js:169-186 | the options become the models' names, or the fallback, and the first one is selected; nothing else changes |
| Dashboard.Dashboard.CheckConnection | script.js:133-143 | the result is true exactly when the models could be fetched, even if there are none; the dropdown is filled from them, or holds only the fallback |
| Dashboard.Dashboard.Initialize | script.js:78-82 | `connecting` and then `connected` or `disconnected` are applied; the page is connected exactly when the models could be fetched, with the matching status text and class; the help list appears otherwise; the first option of the filled dropdown is selected |
| Dashboard.Dashboard.ShowError | script.js:337-346 | the response area is replaced by the error area and nothing else changes |
| Dashboard.Dashboard.HandleGenerationError | script.js:315-334 | the response area shows the report for the message's category, naming the currently selected model |
| Dashboard.Dashboard.SelectModelByPreference | script.js:349-369 | true exactly when a preference finds a non-empty lower-cased option, which becomes the selection; otherwise the selection is kept |
| Dashboard.Dashboard.ApplyTaskApp | script.js:376-415 | a known app selects its preferred model if one is present and puts its template in the prompt box; an unknown app keeps both; nothing else changes |
| Dashboard.Dashboard.LoadTaskApp | script.js:372-427 | the app's model and template as above; then the placeholder range of the prompt box is selected when the guard admits it, and the selection is kept otherwise |
| Dashboard.Dashboard.CopyContent | script.js:439-457 | 'last' gives the last assistant text, 'all' every text but the placeholder joined by blank lines, anything else nothing |
| Dashboard.Dashboard.Generate | script.js:220-251 | the prompt box is cleared; `generating` and then `idle` are applied; the area ends as the spinner, the prompt and the full reply, or as the error report |
| Dashboard.Dashboard.ShowOutcome | script.js:242-246 | a completed stream leaves its full reply as a new last message; an error replaces the area with the report for its message; nothing else changes |
| Dashboard.Dashboard.Send | script.js:203-252 | an empty trimmed prompt only shows a warning; an unconnected page whose reconnect fails only shows an error; otherwise the trimmed prompt is sent with the model selected on entry and streamed, after a reconnect attempt the dropdown is refilled (or holds only the fallback) with its first option selected, and the connection state never changes |

## Left out

- `fetch`, `reader.read()` and `TextDecoder`. Their results are parameters: the tags reply, the generate reply, and the already-decoded chunks.
- `JSON.parse` and the `response` property read. They are an abstract `Parser` from a line to an optional record. Non-string `response` values are not modelled.
- Asynchrony. Each operation runs to completion; interleaved clicks during an `await` are not modelled.
- The DOM beyond the fields above: scrolling, focus, CSS classes of messages, `innerHTML` markup, and the copy menu's position.
- The whitespace of the markup: the help list's text is taken as its three items joined by newlines.
- Intermediate renders of the assistant message. They are recorded as the shown texts of `Stream.Progress`; the response area holds the final message once streaming ends.
- The `value` setter of the dropdown. Setting a value that matches no option clears the selection in a browser; the model stores the value as given.
- `setSelectionRange`. The model records the (start, end) pair passed to it; the browser clamps an end before the start.
- Clipboard writing, `showCopySuccess`, `showCopyOptions`, `setTimeout` and `console`. `CopyContent` returns the text that would be written; the clipboard failure path is not modelled.
- `cacheElements`, `setupEventListeners`, `clearAll` and the `DOMContentLoaded` hook. They are wiring, not logic.
- The endpoint URLs and the task apps' template texts. The template is a parameter of `LoadTaskApp`.
- Text.IndexOf, Text.LastIndexOf, Models.PlaceholderRange: indices count code points of the string, while `indexOf`, `lastIndexOf` and `setSelectionRange` count UTF-16 code units; the two differ for text holding characters outside the Basic Multilingual Plane (for `😀[x]` the script selects (2, 5), the model (1, 4)).
- `Text.Lower`: lower-cases ASCII letters only, not the full Unicode mapping of `toLowerCase`.
- A `models` field that is present but not an array (and model entries without a `name`) is not modelled.
