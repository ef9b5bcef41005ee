# lead_finder — a Dafny model of the search client

lead_finder is a browser application that finds diagnostic centers with a CT
machine in a city, or near the user, and the medical specialists around each
center. The answers come from one call to a hosted generative model with web
and maps retrieval enabled. This project models the client side of that
workflow, in Dafny, and proves properties of it. The model covers:

- **Prompt** (`prompt.dfy`): the prompt template. It interpolates the count,
  the location clause, the comma-separated specialty list and one
  lower-cased schema line per specialty.
- **Extraction** (`extraction.dfy`): picking the JSON candidate out of the
  model's free text.
  - The candidate is the body captured by the first fence match, when that
    body is non-empty.
  - Otherwise, when the text holds both a `{` and a `}`, it is `substring`
    between the first `{` and one past the last `}`. With the braces in
    order that is the span from the first `{` through the last `}`. With
    the last `}` before the first `{`, `substring` swaps its bounds and
    gives the text strictly between them.
  - Otherwise it is the whole text.
  - The regular expression's single match is described position by
    position rather than run by an engine.
- **Sources** (`sources.dfy`, `js_map.dfy`): collecting the citations from
  the retrieval chunks, then reducing them to one per URI through a
  JavaScript `Map`. The map keeps the order in which each key was first
  inserted, and a later `set` overwrites the value.
- **GeminiService** (`gemini_service.dfy`): the service function.
  - It builds the request.
  - It announces each stage with a status message.
  - It classifies every failure into the message the user sees.
  - The network call and `JSON.parse` are parameters: `transport` gives the
    model's answer to a request, and `parse` gives the parsed object, or
    `None` for a `SyntaxError`.
- **SpecialtySelector** (`specialty_selector.dfy`): the specialty picker.
  It covers the thirteen-entry catalogue, the toggle and the summary label.
- **SearchFormComponent** (`search_form.dfy`): the search form. It is a
  class holding the form's state hooks. The module also models the submit
  and "Or Near Me" handlers and the buttons' `disabled` flags.
- **AppComponent** (`app.dfy`): the page. It is a class holding the page's
  five state hooks, the geolocation success callback and `handleSearch`.
- **Shared modules**: `types.dfy` holds the records exchanged, `text.dfy`
  holds the JavaScript string operations used (`trim`, `indexOf`,
  `lastIndexOf`, `substring`, `includes`, `join`, `toLowerCase`), and
  `wrappers.dfy` holds `Option` and `Result`.

A React state setter becomes a field assignment in a method with a
`modifies` clause. A call of a callback prop becomes a returned value. Status
updates are returned as the ordered list of messages passed to the callback.

## Model

| member | source | states |
|---|---|---|
| Text.Trim | components/SearchForm.tsx:19 | `trim()` returns the slice of the input between a whitespace-only prefix and a whitespace-only suffix, and it neither starts nor ends with whitespace. Whitespace is the set JavaScript uses. |
| Text.TrimEmptyIff | components/SearchForm.tsx:19 | `city.trim()` is falsy exactly when the city is all whitespace. |
| Text.IndexOfFrom | services/geminiService.ts:91 | `indexOf` returns the first position at or after the start where the pattern occurs, or -1 when there is none. |
| Text.LastIndexOf | services/geminiService.ts:92 | `lastIndexOf` returns the last position of the character, with no later copy, or -1 exactly when the character is absent. |
| Text.IncludesIff | services/geminiService.ts:129 | `includes` holds exactly when the pattern is a contiguous piece of the text. |
| Text.Substring | services/geminiService.ts:94 | `substring` clamps both bounds into the string and swaps them when the first is larger. |
| Text.ToLower | services/geminiService.ts:20 | `toLowerCase` keeps the length and lower-cases each letter A-Z, leaving every other character unchanged. |
| Text.JoinAt | services/geminiService.ts:19-20 | `join(sep)` places element `i` after the join of the elements before it and one separator. |
| Text.NatToStringRoundTrip | components/SpecialtySelector.tsx:45 | The decimal rendering of a count reads back as that count. |
| Prompt.LocationText | services/geminiService.ts:22-24 | A non-empty city gives `in the city of "<city>"`. An empty one gives the 5 km radius clause. |
| Prompt.SchemaEntries | services/geminiService.ts:20 | There is one schema line per specialty, in order, keyed by the lower-cased label. |
| Prompt.PromptStatesCountAndLocation | services/geminiService.ts:18-30 | The prompt contains `Search for the top <n> diagnostic centers ` and the location clause. |
| Prompt.InstructionInPrompt | services/geminiService.ts:26-56 | The prompt contains the search instruction and the schema block of the specialists. |
| Prompt.EntryInDefinition | services/geminiService.ts:20 | Each specialty's schema line is part of the joined schema block. |
| Prompt.PromptHasSchemaEntry | services/geminiService.ts:20-51 | Every requested specialty has its lower-cased schema line in the prompt. |
| Prompt.SchemaInRequestOrder | services/geminiService.ts:20 | Schema line `i` sits between the lines of the earlier specialties and those of the later ones, joined by `,\n`. |
| Extraction.MatchFence | services/geminiService.ts:86 | A match found is the regular expression's match, described position by position. A match is found exactly when some "```" follows the end of some "```json". |
| Extraction.FenceMatchUnique | services/geminiService.ts:86 | That description determines a single match. |
| Extraction.BraceCandidate | services/geminiService.ts:91-95 | The brace fallback is never longer than the reply. |
| Extraction.JsonCandidate | services/geminiService.ts:83-96 | The text given to `JSON.parse` is never longer than the reply. |
| Extraction.CandidateIsInfix | services/geminiService.ts:83-96 | Whichever rule applies, the text given to `JSON.parse` is a contiguous piece of the reply. |
| Extraction.BraceCandidateIsInfix | services/geminiService.ts:91-95 | The brace fallback yields a contiguous piece of the reply. |
| Extraction.FirstBrace | services/geminiService.ts:91 | `indexOf('{')` is -1 exactly when there is no `{`. Otherwise it is the position of a `{` with none before it. |
| Extraction.LastBrace | services/geminiService.ts:92 | `lastIndexOf('}')` is the position of a `}` with none after it. |
| Extraction.BraceSpan | services/geminiService.ts:91-95 | With the first `{` before the last `}`, the fallback is exactly the text from that `{` through that `}`. |
| Extraction.CandidateIsFencedBody | services/geminiService.ts:86-88 | A non-empty captured body is the candidate. |
| Extraction.FencedBodyShape | services/geminiService.ts:86 | The captured body has no whitespace at either end and contains no "```". |
| Extraction.CandidateFromFence | services/geminiService.ts:86-88 | With a non-empty captured body, the candidate is that body, with both of the properties above. |
| Extraction.UnfencedCandidate | services/geminiService.ts:87-96 | Without a non-empty captured body, the brace rule decides. |
| Extraction.CandidateFromBraces | services/geminiService.ts:89-95 | Without a fence, the candidate runs from the first `{` to the last `}`. It opens with `{` and closes with `}`, no `{` comes before it and no `}` after it. |
| Extraction.CandidateWithoutBraces | services/geminiService.ts:93 | Without a fence and missing a `{` or a `}`, the candidate is the whole text. |
| Extraction.CandidateBetweenSwappedBraces | services/geminiService.ts:94 | With the last `}` before the first `{`, `substring` swaps its bounds. The candidate is then the brace-free text strictly between them. |
| Extraction.FencedRoundTrip | services/geminiService.ts:83-88 | Surrounding a trimmed, backquote-free body with a fence, whitespace and prose yields that body again. |
| Extraction.BracedRoundTrip | services/geminiService.ts:89-95 | An unfenced object with no `{` before it and no `}` after it is yielded exactly. |
| Sources.ChunkSources | services/geminiService.ts:105-110 | A chunk contributes its web source first, then its maps source, typed `web` and `maps`. |
| Sources.Flatten | services/geminiService.ts:103-111 | Each chunk contributes at most two sources. |
| Sources.FlattenAppend | services/geminiService.ts:104-111 | Collecting two runs of chunks is collecting each and concatenating the results. |
| Sources.FlattenMembership | services/geminiService.ts:103-111 | A source is collected exactly when some chunk contributes it. |
| Sources.CollectSources | services/geminiService.ts:101-112 | The loop's result is the sources of all chunks, in order. Absent chunks give none. |
| JsMap.OrderedMap.Set | services/geminiService.ts:115 | `Map.set` appends a new key, keeps an existing key's place, replaces its value and keeps the map well formed. |
| JsMap.OrderedMap.Values | services/geminiService.ts:115 | `values()` lists one value per key, in key order. |
| JsMap.Empty | services/geminiService.ts:115 | The new map is empty and well formed. |
| Sources.UriMap | services/geminiService.ts:115 | The map built from the sources keyed by URI is well formed. |
| Sources.UriMapKeys | services/geminiService.ts:115 | The map has a key for exactly the URIs present. |
| Sources.UriMapValues | services/geminiService.ts:115 | Each key holds the last source with that URI. |
| Sources.UriMapOrder | services/geminiService.ts:115 | Keys are ordered by the first appearance of their URI. |
| Sources.Dedup | services/geminiService.ts:115 | Deduplication never lengthens the list. |
| Sources.DedupFollowsKeys | services/geminiService.ts:115 | The deduplicated list follows the keys, one source per key. |
| Sources.DedupCovers | services/geminiService.ts:115 | Every input URI is represented in the output. |
| Sources.DedupSpec | services/geminiService.ts:115 | The output has distinct URIs and covers every input URI. Each entry is the last source with its URI, and the entries are ordered by first appearance. |
| Sources.UriMapOfDistinct | services/geminiService.ts:115 | With distinct URIs the keys are the URIs in order, and every source is kept. |
| Sources.DedupOfDistinct | services/geminiService.ts:115 | Deduplicating a list with distinct URIs changes nothing. |
| Sources.DedupIdempotent | services/geminiService.ts:115 | Deduplicating twice is the same as deduplicating once. |
| Sources.DedupPairSameUri | services/geminiService.ts:115 | Two sources with one URI collapse to the later one. |
| Sources.DedupPairDistinctUris | services/geminiService.ts:115 | Two sources with different URIs are both kept, in order. |
| GeminiService.LooksInternal | services/geminiService.ts:129 | The text looks internal exactly when it contains "Internal error encountered", "500" or "xhr error" as a contiguous piece. |
| GeminiService.ClassifyError | services/geminiService.ts:120-135 | A `SyntaxError` gives the malformed-response message. An internal marker in the error text gives the internal-error message. Otherwise an `Error` keeps its message, and any other thrown value gives the unknown-error message. |
| GeminiService.ServerStatusIsInternal | services/geminiService.ts:128-130 | A non-`SyntaxError` whose text contains "500" anywhere is reported as internal. |
| GeminiService.InternalOnlyWithMarker | services/geminiService.ts:129-130 | The internal-error message appears only with one of the three markers, or when an `Error` already carried it. |
| GeminiService.ClassifiedMessageEmptyIff | services/geminiService.ts:122-135 | The rethrown message is empty exactly for an `Error` with an empty message. |
| GeminiService.RequestFor | services/geminiService.ts:64-80 | The request names `gemini-2.5-pro` and carries the built prompt and both retrieval tools. It carries the user's position exactly when that position is known. |
| GeminiService.ExtractJsonText | services/geminiService.ts:83-96 | The reassignments of `jsonText` end with the JSON candidate. |
| GeminiService.FindingStatus | services/geminiService.ts:60-63 | The first status is `Finding the top <n>`, then ` diagnostic centers with CT machines `, then `in <city>...` for a city or `near you...` without one, and nothing else. |
| GeminiService.SearchOutcome | services/geminiService.ts:82-135 | The search resolves exactly when the model answered and its candidate parsed. A failed model call rejects with the classified message of what it threw. A resolved value lists each citation URI once. |
| GeminiService.LaterStatuses | services/geminiService.ts:82-117 | The statuses after the first are the stages "Parsing", "Extracting", "Compiling" in that order, cut where the run stopped. They are empty exactly when the call failed. |
| GeminiService.SearchSucceedsIff | services/geminiService.ts:62-119 | The search resolves exactly when the model answered and its candidate parsed. The centers are then the parsed object's `diagnosticCenters`, or none when that is missing or falsy. The citations are the reply's citations, deduplicated. |
| GeminiService.StatusesTellTheStage | services/geminiService.ts:63-117 | The status messages after the first number three exactly on success. A parse failure gives exactly the parsing status, and a failed call gives none. |
| GeminiService.SearchFailureMessageEmptyIff | services/geminiService.ts:120-135 | A rejection's message is empty only when the model call threw an `Error` with an empty message. |
| GeminiService.HandleResponse | services/geminiService.ts:82-135 | The stages after the call announce themselves in order and end in the search outcome. |
| GeminiService.RunRequest | services/geminiService.ts:62-80 | The first status names the count and place. The call's answer then decides the remaining statuses and the outcome. |
| GeminiService.FindCentersAndSpecialists | services/geminiService.ts:11-137 | It sends the request for the arguments and returns every status update in order, then the resolved value or the rejection's message. |
| SpecialtySelector.CatalogueHasThirteenDistinct | components/SpecialtySelector.tsx:3-7 | The catalogue holds thirteen different specialties. |
| SpecialtySelector.RemoveAll | components/SpecialtySelector.tsx:31 | `filter` removes every copy of the value and keeps all other elements, with their counts. |
| SpecialtySelector.RemoveAllAppend | components/SpecialtySelector.tsx:31 | Filtering a concatenation filters each part, so the survivors of the first part stay ahead of those of the second. |
| SpecialtySelector.RemoveAllSingle | components/SpecialtySelector.tsx:31 | On one element, `filter` drops it when it is the value and keeps it otherwise. |
| SpecialtySelector.RemoveAt | components/SpecialtySelector.tsx:31 | A surviving element lands right after the survivors that preceded it. |
| SpecialtySelector.RemoveKeepsOrder | components/SpecialtySelector.tsx:31 | Two survivors keep their relative order in the result. |
| SpecialtySelector.RemoveAbsent | components/SpecialtySelector.tsx:31 | Filtering out an absent value changes nothing. |
| SpecialtySelector.RemoveKeepsDistinct | components/SpecialtySelector.tsx:31 | Filtering introduces no repeats. |
| SpecialtySelector.RemoveAfterAppend | components/SpecialtySelector.tsx:30-32 | Filtering out the value just appended gives what filtering gave before the append. |
| SpecialtySelector.Toggle | components/SpecialtySelector.tsx:29-34 | The toggled specialty is present afterwards exactly when it was absent before, and every other specialty keeps its membership. An unticked specialty is appended at the end, after the unchanged selection. |
| SpecialtySelector.ToggleMembership | components/SpecialtySelector.tsx:29-34 | A toggle flips the checked state of its own checkbox (line 60) and no other. |
| SpecialtySelector.ToggleTwiceRestores | components/SpecialtySelector.tsx:29-34 | Ticking and then unticking restores the selection. |
| SpecialtySelector.RetickMovesToEnd | components/SpecialtySelector.tsx:29-34 | Unticking and then re-ticking moves the specialty to the end. |
| SpecialtySelector.ToggleKeepsDistinct | components/SpecialtySelector.tsx:29-34 | A selection without repeats stays without repeats. |
| SpecialtySelector.ToggleStaysInCatalogue | components/SpecialtySelector.tsx:29-34 | Toggling catalogue entries keeps the selection inside the catalogue. |
| SpecialtySelector.ToggleCount | components/SpecialtySelector.tsx:29-34 | In a selection without repeats, a toggle changes the count by exactly one. |
| SpecialtySelector.SelectionLabel | components/SpecialtySelector.tsx:45 | The label is "Select specialties" exactly when nothing is selected. It is "1 specialty selected" for one, and the count followed by " specialties selected" for more. |
| SpecialtySelector.SelectionLabelStatesCount | components/SpecialtySelector.tsx:45 | The label starts with the decimal count of selected specialties. |
| SpecialtySelector.SelectionLabelSingularIff | components/SpecialtySelector.tsx:45 | The label uses "specialty" exactly for one selection. |
| SearchFormComponent.SubmitCall | components/SearchForm.tsx:17-22 | Submitting searches exactly when the city is not blank and some specialty is ticked, passing the count and selection through. |
| SearchFormComponent.SubmittedCityIsTrimmed | components/SearchForm.tsx:19-20 | The city searched is the typed text without its surrounding whitespace. |
| SearchFormComponent.LocationCall | components/SearchForm.tsx:24-29 | "Or Near Me" searches with an empty city exactly when the location is available and some specialty is ticked. |
| SearchFormComponent.SubmitDisabled | components/SearchForm.tsx:56 | The Search button is disabled exactly during a search, for a city of whitespace only, or with nothing ticked. |
| SearchFormComponent.NearMeDisabled | components/SearchForm.tsx:45 | "Or Near Me" is disabled during a search. Outside one, it is disabled exactly when its handler would search for no count at all. |
| SearchFormComponent.SubmitButtonAgreesWithHandler | components/SearchForm.tsx:56 | Outside a search, the Search button is enabled exactly when submitting would search. |
| SearchFormComponent.NearMeButtonAgreesWithHandler | components/SearchForm.tsx:45 | Outside a search, "Or Near Me" is enabled exactly when pressing it would search. |
| SearchFormComponent.SearchForm.constructor | components/SearchForm.tsx:11-15 | The form starts with an empty city, a count of 5 and three default specialties. This state is valid. |
| SearchFormComponent.SearchForm.SetCity | components/SearchForm.tsx:37 | Typing replaces the city only and keeps the form valid. |
| SearchFormComponent.SearchForm.SetNumberOfCenters | components/SearchForm.tsx:76-81 | Picking one of the offered options ("5" or "10") replaces the count only. |
| SearchFormComponent.SearchForm.ToggleSpecialty | components/SearchForm.tsx:86-88 | The picker's change replaces the selection by its toggle and keeps it distinct and inside the catalogue. |
| SearchFormComponent.SearchForm.HandleSubmit | components/SearchForm.tsx:17-22 | Submitting reads the state without changing it and makes the submit call. From a valid form, the call carries an offered count and a catalogue selection without repeats. |
| SearchFormComponent.SearchForm.HandleLocationSearch | components/SearchForm.tsx:24-29 | "Or Near Me" makes the location call and clears the city exactly when it searches. |
| AppComponent.ErrorShown | App.tsx:43 | The page shows an error exactly for a rejection. The error is never empty, and a non-empty message is shown as is. |
| AppComponent.ResultsShown | App.tsx:41 | The page shows results exactly for a resolved value, and shows that value. |
| AppComponent.FallbackOnlyForEmptyMessage | App.tsx:43 | The fallback message appears for an `Error` with an empty message, and otherwise only when an `Error` carried exactly that text. |
| AppComponent.NearMeNeverSearchesAsWritten | App.tsx:61 | As rendered, the "Or Near Me" button is always disabled and its handler never searches. |
| AppComponent.NearMeSearchesWhenLocated | App.tsx:61 | If the prop were set from the known position, "Or Near Me" would be enabled and search once a specialty is ticked. |
| AppComponent.App.constructor | App.tsx:9-13 | The page starts with no results, no error, no position, no statuses and not loading. |
| AppComponent.App.OnPositionSuccess | App.tsx:17-22 | The success callback records the position and changes nothing else. |
| AppComponent.App.BeginSearch | App.tsx:30-33 | A search starts by setting loading, clearing results and error, and showing the initial status. |
| AppComponent.App.AppendStatus | App.tsx:35-37 | A status update goes to the end of the list. |
| AppComponent.App.FinishSearch | App.tsx:39-46 | The outcome sets results or error, never both, and loading ends. |
| AppComponent.App.ShowSearch | App.tsx:30-46 | The list shows the initial status followed by the service's statuses in order. The outcome is then shown. |
| AppComponent.App.SearchWith | App.tsx:39-46 | The page shows the statuses and the outcome of the service for the request. |
| AppComponent.App.HandleSearch | App.tsx:29-47 | One search uses the position known when it started. Afterwards the page holds every status in order and either the results or a non-empty error, and is not loading. |
| AppComponent.FiveStatusesExactlyOnSuccess | App.tsx:33-40 | After a search, the page holds results exactly when five status messages were shown. |

## Left out

- The network call to the model is a parameter (`transport`). The module-load check of `API_KEY` (services/geminiService.ts:4-6) is not modelled.
- `JSON.parse` is a parameter (`parse`). Its result is modelled as an object whose `diagnosticCenters` is either a well-typed list of centers or missing or falsy. The source passes any truthy `diagnosticCenters` through unchecked (services/geminiService.ts:119), including a non-array value or malformed records, and the model does not. A parse result of `null` or of a non-object is not modelled either.
- A reply whose `text` is undefined is not modelled. Calling `match` on it throws a `TypeError`. That is an `Error`, so unless its message holds an internal marker, the rejection carries that message as is (services/geminiService.ts:128-132), e.g. "Cannot read properties of undefined (reading 'match')".
- A retrieval chunk whose `web` or `maps` object lacks `uri` or `title` is not modelled. The source would copy `undefined` into the source.
- A thrown non-`Error` value is modelled by its `JSON.stringify` text. A value for which `JSON.stringify` returns `undefined`, which would make `.includes` throw, is not modelled.
- Text.ToLower: lower-cases only the letters A-Z. JavaScript's `toLowerCase` also maps non-ASCII letters, and Unicode case mapping is not modelled.
- The asynchronous scheduling is not modelled. That covers the `await`s, React's batching of state updates, and a second search started while one is in flight; a search is modelled as one atomic step. The `disabled={loading}` attributes of the input, the select and the picker are also not modelled. SearchForm's methods can therefore be called while a search runs.
- Console logging is not modelled. So is the geolocation failure callback (App.tsx:23-25), which only logs and changes no state.
- Floating-point numbers (`googleRating`, latitude and longitude) are `real`. Nothing in the model computes with them.
- The rendering components are not part of this model: ResultsDisplay, SpecialistModal and StatusDisplay. Neither is the markup of the page, the form and the picker. The picker's open state and its click-outside handler are left out too, since they only affect what is drawn.
- SearchFormComponent.SearchForm.SetNumberOfCenters: requires one of the offered options. The source accepts whatever value the select reports, which can only be one of them.
- The count options are those in components/SearchForm.tsx:80-81 ("5" and "10"). No "all" option exists in this code.
- Each schema line of the prompt uses the lower-cased specialty label, following services/geminiService.ts:20, not the label verbatim. The model does not claim a label appears only once in the prompt: a city or another label can contain it.
- A blank submission makes no call and shows no message (components/SearchForm.tsx:19). No validation error is surfaced.

## Findings

| source | as written | input that shows it | evidently intended | confidence | as-written member | corrected member |
|---|---|---|---|---|---|---|
| App.tsx:61 | `<SearchForm>` is rendered without `isLocationAvailable`, so the form receives `undefined` | any position delivered to the success callback (App.tsx:17-22), with specialties ticked | pass `isLocationAvailable={!!userLocation}`, so that "Or Near Me" works once the position is known | high; not executed | AppComponent.NearMeNeverSearchesAsWritten | AppComponent.NearMeSearchesWhenLocated |
