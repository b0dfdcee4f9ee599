# Journey AI itinerary generator: a Dafny model

This project models the core of the Journey AI Next.js application, which turns a trip request
into a day-by-day itinerary generated by a language model.

## Request handlers

Two API routes share one request handler, which is modelled as `ItineraryApi.Respond`:

- `pages/api/generate-itinerary.ts` calls the NVIDIA chat endpoint.
- `pages/api/GenAI.ts` calls a local Ollama server.

The handler answers in four ways:

- **405** when the method is not POST.
- **400** when destination, duration, budget or travelerType is falsy.
- **200** with the itinerary when the generation step succeeds.
- **500** with a client-safe message otherwise.

In `Respond`, the generation step is a function parameter. `HandleNvidia` and `HandleOllama`
plug in the two steps.

### Prompt and generation steps

- **Prompt.** `createItineraryPrompt` is the same in both files. It is modelled once, in
  `ItineraryPrompt`, including every line of its fixed text.
- **NVIDIA step** (`NvidiaGeneration`):
  - It accumulates the streamed chunks in a loop.
  - It then picks the JSON text out of the reply, modelled in `JsonExtraction`.
  - The choice follows the two regular expressions as JavaScript evaluates them. The leftmost
    fenced match wins, with the shortest capture. Otherwise the bare match runs from the first
    `{` to the last `}`.
- **Ollama step** (`OllamaGeneration`):
  - A non-ok reply is an error naming its status.
  - Otherwise the `response` string is parsed.

Both steps rethrow every failure with one generic message, which the handler turns into a 500.

## Client side

- `ItineraryForm` (`src/components/Itinerary.tsx`):
  - the form's fields;
  - `handleChange`;
  - the normalisation of the comma-separated interests (`split`, `trim`, `filter(Boolean)`);
  - the submit lifecycle, with its loading flag and alerts.
- `ItineraryDisplay` (`src/components/ItineraryDisplay.tsx`): what the display shows of each
  optional field, and the budget indicator.
- `Navbar` (`src/components/Navbar.tsx`): the menu links, their labels and active marks, and the
  open/closed state of the mobile menu.
- `AboutPage` (`src/app/about/page.tsx`): the carousel's index and the scroll-dependent title.

## Shared modules

- `Text`: the JavaScript string operations the core relies on: `trim`, `split`, `join` and the
  decimal rendering of integers in template literals.
- `Wrappers`: `Option` and `Result`.
- `ItineraryType`: the itinerary's shape, from `pages/types/ItineraryType.ts`.

## Behaviour of note

- **Absent request body.** In both handlers, a body that is absent or `null` makes the
  destructuring throw inside the `try`, so the answer is 500 with the generic message
  (`RequestBody.Undefined`). Only a body that is present but lacks a field, or has a falsy one,
  gets 400.
- **One failure message.** In `generate-itinerary.ts`, a reply without JSON, a reply whose JSON
  does not parse and a transport failure are all rethrown with the same message, so the client
  cannot tell them apart. `ParseReply` and `NvidiaGenerate` model the inner and the outer
  message.
- **The `json` tag.** The fenced pattern makes the tag optional. `TagAfter` and
  `OpenBraceForced` show that at any fence the tag is taken exactly when it is there: the
  pattern has no choice.
- **Browser validation.** The form's inputs carry `required`, `min`, `max` and `step`, so the
  browser submits only a form that passes them (`Submittable`). Such a form always passes the
  handler's own check, so the form never sees the 400 answer (`SubmittedFormReachesPrompt`).

## Model

| member | source | states |
|---|---|---|
| Text.Trim | client/my-next-app/src/components/Itinerary.tsx:44 | `trim` gives the empty string exactly for all-white-space input; otherwise a contiguous part of the input that begins and ends with a non-space, with only white space cut off on either side |
| Text.TrimUnique | client/my-next-app/src/components/Itinerary.tsx:44 | any part of a string with only white space around it and non-spaces at its ends is its trimmed form |
| Text.TrimOfTrimmed | client/my-next-app/src/components/Itinerary.tsx:44 | a string that begins and ends with a non-space is left alone by `trim` |
| Text.TrimIdempotent | client/my-next-app/src/components/Itinerary.tsx:44 | trimming twice is trimming once |
| Text.TrimAfterWs | client/my-next-app/src/components/Itinerary.tsx:44 | white space put before a string does not change its trimmed form |
| Text.Split | client/my-next-app/src/components/Itinerary.tsx:44 | `split(',')` gives at least one piece, and no piece holds the separator |
| Text.JoinSplit | client/my-next-app/src/components/Itinerary.tsx:44 | joining the pieces with the separator gives the input back |
| Text.SplitJoin | client/my-next-app/src/components/Itinerary.tsx:44 | splitting a join of separator-free pieces gives the pieces back |
| Text.SplitWithoutSep | client/my-next-app/src/components/Itinerary.tsx:44 | a string without the separator is one piece |
| Text.SplitAppend | client/my-next-app/src/components/Itinerary.tsx:44 | the pieces of `a + "," + b` are those of `a` followed by those of `b` |
| Text.JoinSnoc | client/my-next-app/pages/api/generate-itinerary.ts:104 | `join` puts the separator between an element and the one appended after it |
| Text.IntToDecimal | client/my-next-app/pages/api/generate-itinerary.ts:108 | a number in a template literal renders as an optional minus sign then decimal digits, the sign present exactly for negatives |
| Text.NatDecimalRoundTrip | client/my-next-app/pages/api/generate-itinerary.ts:108 | reading back the digits of a natural number gives the number |
| Text.IntDecimalRoundTrip | client/my-next-app/pages/api/generate-itinerary.ts:108 | reading back a rendered integer gives the integer, so distinct numbers render differently |
| ItineraryPrompt.CreateItineraryPrompt | client/my-next-app/pages/api/generate-itinerary.ts:99-148 | the prompt is the header line, then the interests sentence, then exactly the fixed instructions; without interests the instructions follow the header line directly |
| ItineraryPrompt.TemplateParts | client/my-next-app/pages/api/generate-itinerary.ts:107-147 | whatever text follows them, the template holds the header line and the interests sentence first and then exactly that text |
| ItineraryPrompt.InterestsText | client/my-next-app/pages/api/generate-itinerary.ts:102-105 | the interests sentence is empty exactly when there are no interests, and otherwise holds the interests joined by ", " right after its lead |
| ItineraryPrompt.HeaderMentionsRequest | client/my-next-app/pages/api/generate-itinerary.ts:108 | the header line holds the duration, the traveler type, the destination and "$" followed by the budget |
| ItineraryPrompt.PromptMentionsRequest | client/my-next-app/pages/api/generate-itinerary.ts:107-147 | the prompt holds the destination, traveler type, duration and "$budget" verbatim |
| ItineraryPrompt.TemplateInterestsIffNonEmpty | client/my-next-app/pages/api/generate-itinerary.ts:102-109 | whatever follows it, the template differs from the one without interests exactly when there are interests, and then holds the full sentence |
| ItineraryPrompt.InterestsSentenceIffNonEmpty | client/my-next-app/pages/api/GenAI.ts:87-94 | the prompt equals the interest-free prompt exactly when the list is empty; otherwise it holds "The traveler is particularly interested in: " with every interest joined by ", " and a full stop |
| ItineraryPrompt.JoinKeepsOrder | client/my-next-app/pages/api/generate-itinerary.ts:104 | each interest sits in the joined list at its own offset, the next one starting after it and the separator |
| JsonExtraction.SkipWs | client/my-next-app/pages/api/generate-itinerary.ts:180 | greedy `\s*` consumes a run of white space and stops only at a non-space or the end |
| JsonExtraction.OpenBraceForced | client/my-next-app/pages/api/generate-itinerary.ts:180 | every fenced match starting at a fence uses the tag and opening brace the scan finds there |
| JsonExtraction.CloseForced | client/my-next-app/pages/api/generate-itinerary.ts:180 | a closing brace of a fenced match is followed by white space and then its closing fence |
| JsonExtraction.FirstClose | client/my-next-app/pages/api/generate-itinerary.ts:180 | the lazy `[\s\S]*?\}` settles on the first brace that closes a fence, and there is none when it finds none |
| JsonExtraction.FencedAt | client/my-next-app/pages/api/generate-itinerary.ts:180 | a result of the scan at a start is a match of the fenced pattern at that start |
| JsonExtraction.FencedAtComplete | client/my-next-app/pages/api/generate-itinerary.ts:180 | whenever the fenced pattern matches at a start, the scan finds a match there, with the same opening brace and no longer capture |
| JsonExtraction.FirstFenced | client/my-next-app/pages/api/generate-itinerary.ts:180 | the search's result is a fenced match at or after where it began |
| JsonExtraction.FirstFencedIsLeftmostShortest | client/my-next-app/pages/api/generate-itinerary.ts:180 | if the fenced pattern matches anywhere the search finds a match, no later than it and no longer at the same start |
| JsonExtraction.BareSpan | client/my-next-app/pages/api/generate-itinerary.ts:188 | the bare pattern's match encloses every other `{`…`}` pair, and there is none exactly when no `}` follows a `{` |
| JsonExtraction.ExtractJson | client/my-next-app/pages/api/generate-itinerary.ts:180-194 | a candidate begins with `{` and ends with `}`; failure carries "No JSON data found in response" and happens exactly when no `}` follows a `{` |
| JsonExtraction.FencedTakesPrecedence | client/my-next-app/pages/api/generate-itinerary.ts:180-185 | when the fenced pattern matches, the candidate is the capture of the leftmost, shortest fenced match |
| JsonExtraction.Capture | client/my-next-app/pages/api/generate-itinerary.ts:180-185 | the capture of a fenced match is the text from its `{` through its `}`, character for character |
| JsonExtraction.BareFromFirstOpenToLastClose | client/my-next-app/pages/api/generate-itinerary.ts:186-190 | without a fenced match the candidate runs from the first `{` through the last `}` |
| JsonExtraction.FencedBlockExtracted | client/my-next-app/pages/api/generate-itinerary.ts:180-185 | a block tagged json holding one object, after text without backticks, yields exactly that object |
| JsonExtraction.FencedExample | client/my-next-app/pages/api/generate-itinerary.ts:180-185 | "Here you go:" and a fenced json block yield the object in the block |
| JsonExtraction.NoBracesExample | client/my-next-app/pages/api/generate-itinerary.ts:191-193 | "no braces here" yields "No JSON data found in response" |
| JsonExtraction.TwoObjectsExample | client/my-next-app/pages/api/generate-itinerary.ts:188-190 | two unfenced objects yield one span from the first `{` to the last `}` |
| ItineraryApi.ToTripRequest | client/my-next-app/pages/api/generate-itinerary.ts:70-76 | the prompt gets the request's four required values unchanged, and the interests given or `[]` |
| ItineraryApi.HasRequired | client/my-next-app/pages/api/generate-itinerary.ts:59 | the handler's check holds exactly for a present body whose destination and traveler type are non-empty text and whose duration and budget are non-zero numbers |
| ItineraryApi.Respond | client/my-next-app/pages/api/generate-itinerary.ts:51-95 | 405 exactly for a non-POST; 400 exactly for a present body lacking a required value; 200 exactly when generation on the request's prompt succeeds, carrying its data; only these and 500; success exactly with 200; each error status with its message |
| ItineraryApi.EarlyAnswersIgnoreGenerator | client/my-next-app/pages/api/generate-itinerary.ts:51-64 | the 405, 400 and absent-body 500 answers do not depend on the generation step |
| ItineraryApi.GeneratorSeesOnlyThePrompt | client/my-next-app/pages/api/generate-itinerary.ts:70-79 | two generation steps that agree on the request's prompt give the same answer |
| ItineraryApi.MissingInterestsAreEmpty | client/my-next-app/pages/api/GenAI.ts:63 | a request without interests is answered as one with `interests: []` |
| NvidiaGeneration.ChunkText | client/my-next-app/pages/api/generate-itinerary.ts:171 | a chunk contributes its first choice's delta content, or "" when any part of it is missing |
| NvidiaGeneration.AccumulateStream | client/my-next-app/pages/api/generate-itinerary.ts:155-173 | the loop leaves `completeResponse` equal to the chunks' text in arrival order |
| NvidiaGeneration.AccumulatedAppend | client/my-next-app/pages/api/generate-itinerary.ts:170-173 | the text of a stream split in two parts is the first part's text followed by the second's |
| NvidiaGeneration.AccumulatedCons | client/my-next-app/pages/api/generate-itinerary.ts:170-173 | the first chunk's text comes first |
| NvidiaGeneration.AccumulatedEmptyIff | client/my-next-app/pages/api/generate-itinerary.ts:170-173 | the accumulated text (`Accumulated`, the chunks' text in arrival order) is empty exactly when no chunk carries text |
| NvidiaGeneration.AccumulatedSingle | client/my-next-app/pages/api/generate-itinerary.ts:170-173 | a stream of one chunk accumulates exactly that chunk's text |
| NvidiaGeneration.EmptyChunkContributesNothing | client/my-next-app/pages/api/generate-itinerary.ts:171 | a chunk without content leaves the accumulated text unchanged wherever it arrives |
| NvidiaGeneration.ParseReply | client/my-next-app/pages/api/generate-itinerary.ts:177-203 | success exactly when a candidate is extracted and parses, carrying the parse; any other outcome is "Failed to parse itinerary data…" |
| NvidiaGeneration.NvidiaGenerate | client/my-next-app/pages/api/generate-itinerary.ts:151-207 | success exactly for a stream that completes and whose text parses; every failure is "Failed to generate itinerary with language model" |
| NvidiaGeneration.GenerateWithNvidia | client/my-next-app/pages/api/generate-itinerary.ts:151-207 | the method with its loop computes `NvidiaGenerate` |
| NvidiaGeneration.HandleNvidia | client/my-next-app/pages/api/generate-itinerary.ts:46-96 | the handler answers as `Respond` with the NVIDIA generation step |
| NvidiaGeneration.NvidiaFailureIs500 | client/my-next-app/pages/api/generate-itinerary.ts:89-95 | a rejected request, a broken stream, a missing candidate or a failed parse on a valid request gives 500 with the client-safe message |
| NvidiaGeneration.NvidiaUsesFencedCapture | client/my-next-app/pages/api/generate-itinerary.ts:177-198 | a completed stream holding a fenced block yields the parse of the leftmost, shortest fenced capture |
| NvidiaGeneration.CompletedStreamParsesCandidate | client/my-next-app/pages/api/generate-itinerary.ts:177-203 | a completed stream whose text yields a candidate succeeds with the candidate's parse when it parses and otherwise fails |
| OllamaGeneration.ErrorMessage | client/my-next-app/pages/api/GenAI.ts:151-153 | the non-ok message begins with "Ollama API error: " |
| OllamaGeneration.ErrorMessageNamesStatus | client/my-next-app/pages/api/GenAI.ts:152 | the status can be read back from the message |
| OllamaGeneration.OllamaAttempt | client/my-next-app/pages/api/GenAI.ts:137-159 | a non-ok reply is the status error whatever its body; success exactly for an ok reply whose `response` parses, carrying the parse |
| OllamaGeneration.OllamaGenerate | client/my-next-app/pages/api/GenAI.ts:136-164 | fails exactly when the attempt fails, always with "Failed to generate itinerary with language model"; otherwise the attempt's data |
| OllamaGeneration.HandleOllama | client/my-next-app/pages/api/GenAI.ts:37-82 | a valid POST is answered 200 exactly when the Ollama attempt succeeds, with the attempt's data; nothing else gets 200, and a 500 carries the generic message |
| OllamaGeneration.NonOkStatusIs500 | client/my-next-app/pages/api/GenAI.ts:151-153 | a non-ok reply to a valid request is the status error inside and 500 with the client-safe message outside |
| OllamaGeneration.ParsedReplyIs200 | client/my-next-app/pages/api/GenAI.ts:155-159 | an ok, parsable reply to a valid request gives 200 with the parsed data |
| OllamaGeneration.HandlersAgreeBeforeGeneration | client/my-next-app/pages/api/GenAI.ts:37-81 | the two handlers answer identically when both generation steps fail or generation is never reached |
| ItineraryForm.TrimAll | client/my-next-app/src/components/Itinerary.tsx:44 | `map(trim)` trims each piece in place |
| ItineraryForm.DropEmpty | client/my-next-app/src/components/Itinerary.tsx:44 | `filter(Boolean)` keeps exactly the non-empty entries |
| ItineraryForm.TrimAllAppend | client/my-next-app/src/components/Itinerary.tsx:44 | trimming distributes over concatenation |
| ItineraryForm.DropEmptyAppend | client/my-next-app/src/components/Itinerary.tsx:44 | filtering distributes over concatenation |
| ItineraryForm.NormalizeInterests | client/my-next-app/src/components/Itinerary.tsx:44 | every interest sent is non-empty, comma-free and trimmed |
| ItineraryForm.NormalizeAppend | client/my-next-app/src/components/Itinerary.tsx:44 | the interests of `a + "," + b` are those of `a` then those of `b` |
| ItineraryForm.NormalizeOnePiece | client/my-next-app/src/components/Itinerary.tsx:44 | a comma-free text is one trimmed interest, or none when it is blank |
| ItineraryForm.NormalizeClean | client/my-next-app/src/components/Itinerary.tsx:44 | a clean interest on its own normalises to itself |
| ItineraryForm.NormalizeEmptyIff | client/my-next-app/src/components/Itinerary.tsx:44 | no interests are sent exactly when the text holds only commas and white space |
| ItineraryForm.NormalizeAfterSpace | client/my-next-app/src/components/Itinerary.tsx:44 | a leading space changes nothing |
| ItineraryForm.NormalizeAfterComma | client/my-next-app/src/components/Itinerary.tsx:44 | the interests after ", " follow those before it |
| ItineraryForm.NormalizeJoined | client/my-next-app/src/components/Itinerary.tsx:44 | any list of clean interests written as "a, b, c" normalises back to itself |
| ItineraryForm.NormalizeIdempotent | client/my-next-app/src/components/Itinerary.tsx:44 | normalising the written-back result changes nothing |
| ItineraryForm.WithChange | client/my-next-app/src/components/Itinerary.tsx:24-30 | the named field takes the value, via `Number` for duration and budget; every other field keeps its value |
| ItineraryForm.ChangesCompose | client/my-next-app/src/components/Itinerary.tsx:24-30 | the last change to a field wins; changes to different fields commute |
| ItineraryForm.RequestBodyOf | client/my-next-app/src/components/Itinerary.tsx:42-45 | the posted body carries the form's destination, duration, budget and traveler type unchanged and the normalised interests, and passes the handler's check exactly when the four fields are truthy |
| ItineraryForm.Submittable | client/my-next-app/src/components/Itinerary.tsx:71-128 | the browser's validation (`required` destination and traveler type, 1 to 30 days, a budget of at least 100 in steps of 100); a form that passes posts a body that passes the handler's check |
| ItineraryForm.InitialFormNeedsDestination | client/my-next-app/src/components/Itinerary.tsx:16-22 | the untouched form cannot be submitted, and filling in any destination makes it submittable |
| ItineraryForm.SubmittedFormReachesPrompt | client/my-next-app/src/components/Itinerary.tsx:42-45 | a form that passes the browser's validation posts a body that passes the handler's check; the prompt is built from exactly the form's values and the normalised interests, and the answer is 200 or 500, never 400 |
| ItineraryForm.React | client/my-next-app/src/components/Itinerary.tsx:48-58 | the itinerary is delivered exactly for a success envelope with data; otherwise one of the two alerts, depending on whether the request threw |
| ItineraryForm.DeliversIffStatus200 | client/my-next-app/src/components/Itinerary.tsx:50-51 | against the handler, the form delivers exactly when the status is 200 |
| ItineraryForm.ItineraryForm.constructor | client/my-next-app/src/components/Itinerary.tsx:16-22 | the form starts with its initial data, not loading |
| ItineraryForm.ItineraryForm.HandleChange | client/my-next-app/src/components/Itinerary.tsx:24-30 | the form data becomes `WithChange` of the old data; nothing else changes |
| ItineraryForm.ItineraryForm.BeginSubmit | client/my-next-app/src/components/Itinerary.tsx:33-45 | loading is set, the button disabled, and the body is built from the form |
| ItineraryForm.ItineraryForm.FinishSubmit | client/my-next-app/src/components/Itinerary.tsx:48-61 | the outcome delivers or alerts once, and loading is reset whatever happened |
| ItineraryForm.ItineraryForm.HandleSubmit | client/my-next-app/src/components/Itinerary.tsx:32-62 | a submit leaves loading off and the form data as it was, with one delivery or one alert for the reply to the form's body |
| ItineraryForm.ItineraryForm.Submit | client/my-next-app/src/components/Itinerary.tsx:65-147 | while loading (the button disabled) or for a form that fails the browser's validation, nothing is sent and nothing changes; otherwise the press is handled as `HandleSubmit` |
| ItineraryForm.ItineraryForm.SubmitDisabled | client/my-next-app/src/components/Itinerary.tsx:147 | the submit button is disabled exactly while loading |
| ItineraryDisplay.BudgetStatusOf | client/my-next-app/src/components/ItineraryDisplay.tsx:99-103 | within budget exactly when the total cost does not exceed the budget; otherwise over by the positive difference |
| ItineraryDisplay.IndicatorText | client/my-next-app/src/components/ItineraryDisplay.tsx:99-103 | "✓ Within budget", or a line beginning "⚠ Over budget by $" |
| ItineraryDisplay.FixedTwo | client/my-next-app/src/components/ItineraryDisplay.tsx:102 | `toFixed(2)` of a whole amount is its decimal form followed by ".00", from which the amount can be read back |
| ItineraryDisplay.OverAmountReadsBack | client/my-next-app/src/components/ItineraryDisplay.tsx:102 | the over-budget line ends in ".00" and the difference can be read back from it |
| ItineraryDisplay.ShowIfTruthy | client/my-next-app/src/components/ItineraryDisplay.tsx:58 | an optional text is shown exactly when present and non-empty, unchanged |
| ItineraryDisplay.ViewActivity | client/my-next-app/src/components/ItineraryDisplay.tsx:56-72 | time and notes are shown exactly when non-empty; the cost whenever defined, zero included, as "$n" |
| ItineraryDisplay.ViewActivities | client/my-next-app/src/components/ItineraryDisplay.tsx:56 | one entry per activity, in order |
| ItineraryDisplay.ViewDays | client/my-next-app/src/components/ItineraryDisplay.tsx:50-54 | one block per day, in order |
| ItineraryDisplay.ViewDay | client/my-next-app/src/components/ItineraryDisplay.tsx:50-56 | a day's heading begins with "Day " and ends with the day's title, followed by one entry per activity, in order |
| ItineraryDisplay.ViewBudgetLine | client/my-next-app/src/components/ItineraryDisplay.tsx:85-91 | details are shown exactly when non-empty; category and amount always |
| ItineraryDisplay.ViewBudgetLines | client/my-next-app/src/components/ItineraryDisplay.tsx:85 | one row per budget line, in order |
| ItineraryDisplay.Render | client/my-next-app/src/components/ItineraryDisplay.tsx:36-110 | the page shows the destination, every day and every budget line in order, and the indicator of the budget status |
| ItineraryDisplay.ViewDaysAppend | client/my-next-app/src/components/ItineraryDisplay.tsx:50 | rendering days is compositional over concatenation |
| ItineraryDisplay.ExactlyOneIndicator | client/my-next-app/src/components/ItineraryDisplay.tsx:99-103 | the within-budget text is shown exactly when the total does not exceed the budget, and otherwise the over-budget line with the difference |
| ItineraryDisplay.NoEmptyOptionalShown | client/my-next-app/src/components/ItineraryDisplay.tsx:58-71 | no time, note or detail on the page is empty, and a cost is shown exactly when defined |
| ItineraryDisplay.BudgetExamples | client/my-next-app/src/components/ItineraryDisplay.tsx:99-103 | budget 1000: a total of 950 shows "✓ Within budget", 1200 shows "⚠ Over budget by $200.00" |
| ItineraryDisplay.WithinBudgetExample | client/my-next-app/src/components/ItineraryDisplay.tsx:99-103 | budget 1000 and total 950 show "✓ Within budget" |
| ItineraryDisplay.OverBudgetExample | client/my-next-app/src/components/ItineraryDisplay.tsx:99-103 | budget 1000 and total 1200 show "⚠ Over budget by $200.00" |
| Navbar.ReplaceFirst | client/my-next-app/src/components/Navbar.tsx:38 | a string without the pattern is returned unchanged; otherwise one character gives way to the replacement |
| Navbar.ReplaceFirstAt | client/my-next-app/src/components/Navbar.tsx:38 | the first occurrence is replaced; everything before and after it is kept |
| Navbar.ReplaceFirstOccurrence | client/my-next-app/src/components/Navbar.tsx:38 | only the first occurrence is replaced, later ones are kept |
| Navbar.Label | client/my-next-app/src/components/Navbar.tsx:38 | "/" is labelled "Home"; any other path holding "/" loses exactly one character; a path without "/" or "-" is its own label |
| Navbar.LabelOfSubPath | client/my-next-app/src/components/Navbar.tsx:38 | the label of "/name" is the name with its first "-" replaced |
| Navbar.PlainLabel | client/my-next-app/src/components/Navbar.tsx:38 | a dash-free path is labelled with its name |
| Navbar.OnlyFirstDashReplaced | client/my-next-app/src/components/Navbar.tsx:38 | the first "-" becomes a space, later dashes stay |
| Navbar.MenuLabels | client/my-next-app/src/components/Navbar.tsx:28-38 | the labels are "Home", "blogs", "about" |
| Navbar.HomeLabel | client/my-next-app/src/components/Navbar.tsx:28-38 | the "/" link is labelled "Home" |
| Navbar.BlogsLabel | client/my-next-app/src/components/Navbar.tsx:28-38 | the "/blogs" link is labelled "blogs" |
| Navbar.AboutLabel | client/my-next-app/src/components/Navbar.tsx:28-38 | the "/about" link is labelled "about" |
| Navbar.MenuLinks | client/my-next-app/src/components/Navbar.tsx:28-39 | one link per menu path, in order, with its label, active exactly for the current path |
| Navbar.MenuPathsDistinct | client/my-next-app/src/components/Navbar.tsx:28 | the menu paths are pairwise different |
| Navbar.IsActive | client/my-next-app/src/components/Navbar.tsx:11 | a link is active exactly when the current path equals its path character for character |
| Navbar.SubPageNotActive | client/my-next-app/src/components/Navbar.tsx:11 | a page below a menu path, such as "/blogs/x" or "/about/", does not mark that path's link active |
| Navbar.AtMostOneActive | client/my-next-app/src/components/Navbar.tsx:11 | at most one link is active, and one is exactly when the current path is a menu path |
| Navbar.NavbarState.constructor | client/my-next-app/src/components/Navbar.tsx:8 | the mobile menu starts closed |
| Navbar.NavbarState.MobileMenu | client/my-next-app/src/components/Navbar.tsx:74-88 | the mobile menu is rendered exactly while open, with the same links as the desktop menu |
| Navbar.NavbarState.Toggle | client/my-next-app/src/components/Navbar.tsx:56 | the menu button flips the state |
| Navbar.NavbarState.FollowMobileLink | client/my-next-app/src/components/Navbar.tsx:84 | a mobile link closes the menu |
| Navbar.NavbarState.FollowSignIn | client/my-next-app/src/components/Navbar.tsx:94 | the mobile sign-in link closes the menu |
| AboutPage.Next | client/my-next-app/src/app/about/page.tsx:31 | the next index is valid, one more, or 0 after the last image |
| AboutPage.TicksAdvance | client/my-next-app/src/app/about/page.tsx:30-32 | k ticks move the index k places round the three images |
| AboutPage.ThreeTicksReturn | client/my-next-app/src/app/about/page.tsx:30-32 | three ticks bring the carousel back |
| AboutPage.Page.constructor | client/my-next-app/src/app/about/page.tsx:15-17 | title shown, first image, not hovering |
| AboutPage.Page.Tick | client/my-next-app/src/app/about/page.tsx:30-32 | the index advances by `Next`, staying valid; nothing else changes |
| AboutPage.Page.OnScroll | client/my-next-app/src/app/about/page.tsx:21-23 | the title is shown exactly when scrolled at most 100 pixels |
| AboutPage.Page.BackgroundImage | client/my-next-app/src/app/about/page.tsx:43 | the background is the current index's image |
| AboutPage.Page.TitleColor | client/my-next-app/src/app/about/page.tsx:46-49 | a colour exactly while the title is shown, the current index's colour |

## Left out

- Network and model calls are function parameters: the NVIDIA chat request and its stream
  (`complete`), the Ollama `fetch` and its body (`fetch`), and the form's request (`send`).
  Their latency, the model settings (temperature, token limit) and the credential are not
  modelled.
- `JSON.parse` is a parameter (`parse`). The model does not check the parsed value against the
  itinerary shape, and neither does the code.
- Text.IntToDecimal: a number in a template literal is rendered in plain decimal digits, which is
  what JavaScript does for magnitudes below 10^21; from 10^21 on, JavaScript switches to exponent
  form ("1e+21"), which the model does not render.
- Numbers are whole integers. `NaN`, fractions and floating-point rounding are not modelled;
  JavaScript `Number(value)` in `handleChange` is the parameter `toNumber`.
- ItineraryDisplay.IndicatorText: `toFixed(2)` is modelled for whole amounts only (digits
  followed by ".00").
- NvidiaGeneration.ChunkText: a chunk is assumed to carry a `choices` array (possibly empty, which
  gives ""). A chunk without `choices` would throw at `chunk.choices[0]` and end in the generic
  500; that case is not modelled.
- Logging (`console.*`, `console.time`) is not modelled.
- The browser's constraint validation (`Submittable`) is modelled on the form's state as integers:
  a number input holding text that is not a number, and the validation message the browser
  shows, are not modelled.
- The request body is the declared shape. A field of another JSON type is not modelled; an
  absent or `null` body is.
- Navbar.ReplaceFirst: `String.prototype.replace` with a string pattern is modelled for the
  one-character patterns the label uses, not for longer patterns.
- Navigation itself (`Link`, `usePathname`) is not modelled: the current path is a constant of
  the navbar state.
- The about page's `hovering` state is set only by its initial value; nothing in the page
  updates it, so the model has no operation on it. The interval timer, the scroll listener and
  their clean-up are not modelled; `Tick` and `OnScroll` are their callbacks.
- Markup, styling, animation and the typewriter title are not modelled: a view is the text a
  component shows.
- Other files are not part of this model: the sign-in page, the home page, the second
  `src/app/Navbar.tsx`, and the separate PINN code.
