# Soundsentiment-AI — a Dafny model of the analysis pipeline

Soundsentiment-AI answers `GET api/artist/analyze?name=...` with an analysis of
a music artist. The controller (`ArtistController.Analyze`) rejects a blank
name and maps the pipeline's exceptions to HTTP statuses. The pipeline
(`AnalysisService.AnalyzeArtist`) runs four stages in a fixed order:
- It fetches the English biography from TheAudioDB.
- It asks a Hugging Face zero-shot classifier for the best label and translates that label into Spanish.
- It asks a Hugging Face text generator for a JSON timeline. When the answer fails a shallow check, it falls back to a local heuristic timeline.
- It fetches the artist's thumbnail and a completeness score from TheAudioDB.

The browser (`wwwroot/app.js`) escapes what it renders. It builds its own
timeline when the server sends none. It maps the score to a profile band and
the classification to a CSS class.

This project models those parts in Dafny 4.11. It proves what each operation
promises and how the pieces fit together.

Modules, one per part of the program:

| module | models |
|---|---|
| `Wrappers`, `Faults`, `Json` | Option/Result, the exceptions the code raises or catches, an abstract JSON document with `TryGetProperty` and `GetString` |
| `Text` | .NET and ECMAScript white space, `Trim`, `IsNullOrWhiteSpace`, `IndexOf`/`LastIndexOf`, `String.Split`, `includes`, `toLowerCase`, `replace(/c/g, ...)` |
| `Years` | the two year searches `\b(19\|20)\d{2}\b` (server) and `(19\|20)\d{2}` (browser) |
| `Heuristic` | `GenerateSimpleTimeline` (a loop method) and the timeline it yields |
| `Labels` | `ExtractBestLabel` (a loop method over the scores) and `TranslateClassification` |
| `HuggingFace` | the response normalisation of `ClassifyBiography` and `GenerateTimeline`, and `TryExtractJsonArray` |
| `AudioDb` | `GetArtistBiography`, and `GetArtistImageAndScore` (a method with the weight counter) |
| `Analysis` | `AnalyzeArtist` and `GenerateTimelineWithFallback`, over abstract collaborators |
| `ArtistApi` | the controller action and its exception-to-status mapping |
| `EndToEnd` | the wiring of `Program.cs`: the service models plugged into the pipeline and the controller |
| `ClientApp` | `escapeHtml`, `generateClientTimelineJson` (a loop method), the profile status bands, `getClassificationClass` |
| `CrossChecks` | how the server's output meets the browser's code |

How the model treats things it cannot represent directly:
- **Parameters.** HTTP responses, the JSON parser and serializer, and the collaborators of the pipeline are parameters:
  - an upstream request is represented by the `HttpResponse` it returned;
  - `JsonCodec(parse, serialize)` stands for `System.Text.Json` and `JSON`, and `parse` is `None` exactly where parsing would throw.
- **Exceptions.** An exception becomes a `Failure` of a `Result`, carrying its kind: `ArgumentError`, `KeyNotFound`, `HttpFailure`, `JsonSyntax` or `InvalidOperation`.
- **Call trace.** `AnalyzeArtist` returns the outcome together with the collaborator calls it made.

Two facts about the program as written:
- **The fallback timeline has keys the browser does not read.** `GenerateSimpleTimeline` serialises its events with the default `JsonSerializer` options, so each item has the keys `Year`, `Event` and `Details`. The browser's `renderTimeline` reads `year`, `event` and `details`, so the fallback items show no year, title or details. The browser's own timeline has all three keys.
- **The server's labels meet only two classification classes.** "Carrera exitosa" gets `class-success` (proved). `CrossChecks.DefaultClassWhenLettersMissing` proves that a label gets `class-default` when it lacks 'x' and lacks one letter of each of "emergente", "leyenda" and "independiente". Each of the other Spanish labels lacks such letters, as the lemma's comment lists, so the classes `class-rising`, `class-legend` and `class-indie` are never chosen for the server's labels. This last step is checked by reading the letters, not proved.

Three more facts about the code:
- **Throwing paths in the profile weight.** A profile field that is present with a value that is neither a string nor null (for example `intFormedYear` as a number) makes `GetString` throw; a null value is simply not counted. The analysis then ends with 500.
- **Unchecked label and score arrays.** `ExtractBestLabel` does not check that the two arrays have equal lengths:
  - more scores than labels can make the best index fall outside the labels, and that gives "Unknown" through the catch;
  - a score that is not a number also gives "Unknown".
- **The timeline is never empty.** The server's timeline is never the empty string: the heuristic always serialises an array.

## Model

| member | source | states |
|---|---|---|
| Json.GetString | Services/AudioDbService.cs:53-56 | null gives None, a string gives its text, any other kind fails with InvalidOperation |
| Json.TryGetProperty | Services/AudioDbService.cs:43-45 | fails with InvalidOperation exactly on a non-object; otherwise finds the value exactly when the key is present |
| Text.Trim | Services/AnalysisService.cs:107 | the result is no longer than the input and starts and ends with a character that is not white space |
| Text.TrimIsSliceBetweenWhiteSpace | Services/AnalysisService.cs:107 | Trim's result is the slice of the input between an all-white-space prefix and an all-white-space suffix |
| Text.TrimEmptyIffBlank | wwwroot/app.js:246 | Trim gives "" exactly when every character is white space |
| Text.TrimStartDropsOnlyWhiteSpace | Services/AnalysisService.cs:73 | TrimStart removes only white space, and only from the front |
| Text.TrimStartStartsWith | Services/AnalysisService.cs:73 | TrimStart().StartsWith of a non-white-space character holds exactly when that character is the first one that is not white space |
| Text.IndexOf | Services/HuggingFaceService.cs:219 | the first position of the character, or -1 exactly when it is absent |
| Text.LastIndexOf | Services/HuggingFaceService.cs:220 | the last position of the character, or -1 exactly when it is absent |
| Text.Contains | wwwroot/app.js:188-191 | true exactly when the needle occurs at some position |
| Text.ToLowerAscii | wwwroot/app.js:186 | same length, every character lower-cased |
| Text.IsBlank | Services/AnalysisService.cs:31 | string.IsNullOrWhiteSpace of a non-null string: every character is .NET white space, the empty text included |
| Text.ReplaceAll | wwwroot/app.js:234-239 | after a global replace of a character by a text that lacks it, the character no longer occurs |
| Text.SplitAtSeparators | Services/AnalysisService.cs:101 | one piece more than there are separators, and no piece holds a separator |
| Text.SplitRoundTrip | Services/AnalysisService.cs:101 | the pieces interleaved with the text's separators, in order, give the text back; with the split's own contract this fixes each piece as the stretch between two consecutive separators |
| Text.SplitKeepsText | Services/AnalysisService.cs:101 | the pieces put back together are the text without its separators |
| Text.NonEmpty | Services/AnalysisService.cs:101 | StringSplitOptions.RemoveEmptyEntries: no piece of the result is empty, and a text is among the result exactly when it is a non-empty piece |
| Text.NonEmptySingle | Services/AnalysisService.cs:101 | one piece is kept exactly when it is not empty |
| Text.NonEmptyConcat | Services/AnalysisService.cs:101 | dropping empty pieces distributes over concatenation, so with NonEmptySingle every non-empty piece is kept in order |
| Text.SplitAtSeparatorRuns | wwwroot/app.js:246 | split(/[.\n]+/): at least one piece, no piece holds a separator, the first piece is non-empty when the text starts with another character, and only the first and last piece can be empty |
| Text.SplitsAgreeOnNonEmptyPieces | wwwroot/app.js:246 | splitting on runs of separators and splitting on single ones give the same non-empty pieces |
| Years.FirstYearFrom | Services/AnalysisService.cs:103-111 | the leftmost match at or after a position, None exactly when there is none |
| Years.YearMatch | wwwroot/app.js:247-254 | null exactly when nothing matches; otherwise the four characters, starting with "19" or "20", of the leftmost match |
| Years.BrowserYearNoLaterThanServer | wwwroot/app.js:247 | whenever the server's word-bounded search finds a year, the browser's search finds one at or before it |
| Years.BoundaryMatters | Services/AnalysisService.cs:103 | a year glued to letters ("in1990") is found only by the browser's search |
| Heuristic.Kept | Services/AnalysisService.cs:107-108 | a fragment is kept, trimmed, exactly when its trimmed length is at least 20 |
| Heuristic.TimelineJson | Services/AnalysisService.cs:131 | the serialised timeline is an array with one item per event, each an object with exactly the PascalCase keys Year, Event and Details holding the event's year, title and details |
| Heuristic.GenerateSimpleTimeline | Services/AnalysisService.cs:98-132 | returns the serialisation of SimpleTimeline of the biography |
| Heuristic.CollectEvents | Services/AnalysisService.cs:100-129 | the loop with its early exit yields the first eight events of the qualifying fragments |
| Heuristic.SimpleTimelineShape | Services/AnalysisService.cs:105-129 | at most eight events, one per qualifying fragment, in order, fewer than eight only when the fragments run out |
| Heuristic.MakeEvent | Services/AnalysisService.cs:110-125 | the event made from one kept fragment; EventFields states its fields |
| Heuristic.EventFields | Services/AnalysisService.cs:110-125 | Details is the fragment, Event is the fragment or its first 220 characters and "...", and Year is the leftmost word-bounded year or "Unknown" exactly when there is none |
| Heuristic.EventsComeFromTrimmedLongFragments | Services/AnalysisService.cs:107-124 | every event's details are at least 20 characters with no white space at either end |
| Heuristic.ConcatMapAppend | Services/AnalysisService.cs:105-129 | the fragments of an earlier part of the text come before those of a later part |
| Heuristic.SkipStep | Services/AnalysisService.cs:108 | a short fragment adds no event |
| Heuristic.KeepStep | Services/AnalysisService.cs:110-125 | a long fragment appends its event last |
| Heuristic.StopAtCap | Services/AnalysisService.cs:128 | once eight events are collected, the remaining fragments change nothing |
| Labels.MaxScore | Services/AnalysisService.cs:147-158 | non-negative and at least every score |
| Labels.ArgMax | Services/AnalysisService.cs:147-158 | the index the scan settles on; with a positive maximum it holds the maximum |
| Labels.BestIndexUnique | Services/AnalysisService.cs:150-158 | the characterisation of the chosen index (first strict maximum above 0, else 0) allows one index only |
| Labels.Numbers | Services/AnalysisService.cs:150-152 | None exactly when some score is not a JSON number, else the numbers in order |
| Labels.BestLabel | Services/AnalysisService.cs:134-169 | anything other than "Unknown" is one of the labels offered in the response |
| Labels.ExtractBestLabel | Services/AnalysisService.cs:134-169 | the loop's answer equals BestLabel of the parsed response |
| Labels.ScanStep | Services/AnalysisService.cs:150-158 | one more score moves the best index to it exactly when it is strictly greater than the running maximum |
| Labels.BestLabelPicksBestIndex | Services/AnalysisService.cs:142-160 | the label returned is the one at the best index, or "Unknown" when that index is past the labels |
| Labels.NoPositiveScorePicksFirstLabel | Services/AnalysisService.cs:147-160 | with no positive score the first label is returned |
| Labels.UnknownCases | Services/AnalysisService.cs:142-167 | no JSON, a missing "labels" or "scores", an empty labels array, a "scores" that is not an array, or a score that is not a number give "Unknown" |
| Labels.NonStringLabelIsUnknown | Services/AnalysisService.cs:160-166 | a label at the best index that is not a string gives "Unknown": null through the `??` fallback, any other kind through the catch |
| Labels.Translate | Services/AnalysisService.cs:171-184 | each candidate label maps to its Spanish name, and "No determinada" is returned exactly for non-candidates |
| Labels.TranslateInjective | Services/AnalysisService.cs:175-181 | different candidates get different Spanish names |
| HuggingFace.TextOrEmpty | Services/HuggingFaceService.cs:105 | a string gives its text, null gives "", any other kind fails |
| HuggingFace.NormalizeClassification | Services/HuggingFaceService.cs:97-126 | a body that is not JSON is returned as is; the root's generated_text takes precedence over the first array element's, then over a first string element; fails (InvalidOperation) exactly when the generated_text found is neither a string nor null; a result other than the body comes from a generated_text or from a first string element, so any other array or value gives the body |
| HuggingFace.ClassifyBiography | Services/HuggingFaceService.cs:84-126 | an unsuccessful status fails with it; otherwise the normalised body; failures are HTTP or InvalidOperation only |
| HuggingFace.TryExtractJsonArray | Services/HuggingFaceService.cs:215-237 | None for blank text; a result is the slice from the first '[' to the last ']', contains every bracket pair of the text, and parses as an array; such a slice is returned whenever it parses as an array |
| HuggingFace.NormalizeTimeline | Services/HuggingFaceService.cs:182-213 | each branch: generated_text (extracted array or text), a JSON array or object verbatim, an extracted array, or the raw body; any result other than the body is an array or comes from generated_text |
| HuggingFace.GenerateTimeline | Services/HuggingFaceService.cs:135-238 | a blank biography fails with ArgumentError, an unsuccessful status with HttpFailure, otherwise the normalised body; a JSON syntax error never escapes |
| AudioDb.FirstArtist | Services/AudioDbService.cs:40-50 | fails exactly on unparsable JSON (JsonSyntax) or a non-object root (InvalidOperation); finds an artist exactly when "artists" is a non-empty array, and it is the first |
| AudioDb.Biography | Services/AudioDbService.cs:25-57 | blank name is an ArgumentError, bad status an HttpFailure; a biography found is the first artist's strBiographyEN string; no artists, or a first artist whose strBiographyEN is absent or null, gives null; a successful response fails exactly when it is not JSON, its root is not an object, or the first artist is not an object or has a biography that is neither a string nor null |
| AudioDb.Filled | Services/AudioDbService.cs:98-100 | a field counts exactly when present as a non-blank string; a present non-string, non-null field fails |
| AudioDb.Count | Services/AudioDbService.cs:97-100 | fails exactly when some field fails; at most the number of keys, all of them exactly when every field is filled, 0 exactly when none is |
| AudioDb.Score | Services/AudioDbService.cs:103 | the score in hundredths is weight/3 rounded to two decimals |
| AudioDb.ScoreValues | Services/AudioDbService.cs:102-103 | weights 0..3 give 0, 33, 67 and 100 hundredths |
| AudioDb.ScoreMonotone | Services/AudioDbService.cs:102-103 | more filled fields never lower the score |
| AudioDb.ImageAndScoreOf | Services/AudioDbService.cs:64-106 | blank name is an ArgumentError, bad status an HttpFailure; no artists gives (null, 0); a listed first artist gives its strArtistThumb string (null when absent or null) and Score of its weight, one of four values; a successful response fails exactly when it is not JSON, its root is not an object, or the first artist is not an object or has a malformed thumbnail or profile field |
| AudioDb.GetArtistImageAndScore | Services/AudioDbService.cs:64-106 | the method with its weight counter returns ImageAndScoreOf |
| AudioDb.WeightSteps | Services/AudioDbService.cs:97-100 | the three increments compute Count over the three profile keys, failing on the first field that throws |
| AudioDb.OnlyFirstArtistMatters | Services/AudioDbService.cs:50 | two responses whose first artist agree give the same biography and the same image and score |
| Analysis.NotFoundMessage | Services/AnalysisService.cs:38 | the 404 message names the artist |
| Analysis.AcceptsAiTimeline | Services/AnalysisService.cs:73-77 | an AI timeline is accepted exactly when it parses and '[' is its first character that is not white space; a text that does not parse is rejected |
| Analysis.TimelineWithFallback | Services/AnalysisService.cs:66-92 | the AI timeline verbatim when it passes the shallow check, and the heuristic timeline in every other case |
| Analysis.AnalyzeArtist | Services/AnalysisService.cs:29-61 | the calls are a prefix of the pipeline order; a blank name, a failed, missing or blank biography, and a failed classification stop the pipeline with the matching error, a failed classification right after Classify; a successful classification runs all four stages, after which only the image and score lookup can fail, with its own error; a success carries every field |
| Analysis.TimelineGeneratorOnlyAffectsTimeline | Services/AnalysisService.cs:66-92 | replacing the timeline generator changes only the timeline of the result |
| Analysis.BracketedArrayIsAccepted | Services/AnalysisService.cs:73-78 | text starting with '[' that parses passes the shallow check |
| ArtistApi.StatusCode | Controllers/ArtistController.cs:31-34 | one of 200, 400, 404, 500, and 200 exactly for Ok |
| ArtistApi.Respond | Controllers/ArtistController.cs:40-56 | success is Ok; KeyNotFound is 404 and ArgumentError 400, both with the exception's message; everything else is 500 with the fixed message |
| ArtistApi.Analyze | Controllers/ArtistController.cs:35-57 | a blank name is 400 without calling the service; any other name is answered with Respond of the service's outcome, after the service's calls; Ok names the artist and ran the whole pipeline |
| ArtistApi.GuardsAgree | Controllers/ArtistController.cs:37-38 | the controller's guard answers a blank name as the service's own guard would |
| EndToEnd.Services | Program.cs:25-29 | each collaborator is the model of the corresponding service call |
| EndToEnd.Handle | Controllers/ArtistController.cs:35-57 | a blank name gets 400; Ok names the artist and has one of the four scores |
| EndToEnd.ServicesRaiseNeitherArgumentNorKeyErrors | Controllers/ArtistController.cs:45-52 | for a name that is not blank, the only KeyNotFound or ArgumentError that can come out of the pipeline is its own not-found error |
| EndToEnd.BadRequestOnlyForBlankName | Controllers/ArtistController.cs:37-52 | the answer is 400 exactly when the name is blank |
| EndToEnd.NotFoundExactlyWithoutBiography | Services/AnalysisService.cs:35-38 | the answer is 404 exactly when the lookup succeeds without a usable biography, and the message names the artist |
| EndToEnd.UpstreamFailuresAreInternalErrors | Controllers/ArtistController.cs:53-56 | a failed or unparsable biography search, a root that is not an object, or a first artist that is not an object or has a biography of the wrong kind is answered with 500 and the generic message |
| EndToEnd.GeneratorNeverDecidesStatus | Services/AnalysisService.cs:66-92 | the text generator's response never changes the status code |
| ClientApp.EscapeHtml | wwwroot/app.js:231-240 | "" exactly for "", and the replace chain equals escaping each character on its own |
| ClientApp.EscapeEachIsChain | wwwroot/app.js:233-239 | the six global replaces in their order escape each character independently ('&' first, so nothing is escaped twice) |
| ClientApp.EscapeHtmlRoundTrip | wwwroot/app.js:231-240 | unescaping the result gives back the input |
| ClientApp.EscapeHtmlIsEscaped | wwwroot/app.js:231-240 | the result holds no quote, apostrophe or newline, and every '<' or '>' belongs to a "<br/>" |
| ClientApp.ReplaceAllAppend | wwwroot/app.js:234 | a global replace distributes over concatenation |
| ClientApp.LongSentences | wwwroot/app.js:246 | no more sentences than pieces, each longer than 20 characters |
| ClientApp.LongSentencesAround | wwwroot/app.js:246 | every piece, wherever it stands, contributes its JavaScript-trimmed text in its own place exactly when that is longer than 20 characters, and nothing otherwise |
| ClientApp.Sentences | wwwroot/app.js:246 | the sentences of the biography's run-split pieces, each longer than 20 characters |
| ClientApp.MakeClientEvent | wwwroot/app.js:250-255 | the item for one sentence; ClientTimelineShape states its fields, the year through YearMatch's leftmost-match contract |
| ClientApp.ClientTimelineJson | wwwroot/app.js:255-258 | one item per event with exactly the keys year, event and details: year is null when no year was found and the year's text otherwise, event the title, details the sentence |
| ClientApp.GenerateClientTimelineJson | wwwroot/app.js:243-259 | "[]" for an empty biography, otherwise the serialisation of ClientTimeline |
| ClientApp.ClientTimelineShape | wwwroot/app.js:246-256 | at most six items, one per long sentence in order; each keeps its sentence, titles it with 60 characters and "...", and takes the first plain year match |
| ClientApp.ClientFindsServerYears | wwwroot/app.js:247-254 | an item whose sentence has a word-bounded year gets a year |
| ClientApp.ProfileStatusText | wwwroot/app.js:167-172 | the text of the score's band |
| ClientApp.ProfileStatusClass | wwwroot/app.js:174-179 | the class of the score's band |
| ClientApp.StatusTextDeterminesClass | wwwroot/app.js:167-179 | the two functions use the same thresholds: equal texts give equal classes |
| ClientApp.BandOf | wwwroot/app.js:167-179 | the band both status functions select with the thresholds 0.9, 0.6 and 0.3; BandMonotone and ProfileStatusText state its properties |
| ClientApp.BandMonotone | wwwroot/app.js:167-179 | the band's rank never decreases as the score grows: a higher score never falls to a lower band |
| ClientApp.ClassificationClass | wwwroot/app.js:183-194 | unknown exactly for ""; otherwise the first of exitosa, emergente, leyenda, independiente contained in the lower-cased text decides, default exactly when none is |
| CrossChecks.ServerTimelineKeysMissTheClient | wwwroot/app.js:21-24 | the heuristic timeline's items carry none of the keys renderTimeline reads; the browser's items carry all three |
| CrossChecks.MissingCharacterRulesOut | wwwroot/app.js:188-191 | a text lacking a character of the needle does not contain it |
| CrossChecks.LowerAvoids | wwwroot/app.js:186 | lower-casing a text without a letter in either case does not produce it |
| CrossChecks.DefaultClassWhenLettersMissing | wwwroot/app.js:183-194 | a label without 'x' and without one letter of each of the other needles gets class-default |
| CrossChecks.SuccessClassForSuccessfulCareer | Services/AnalysisService.cs:181 | "Successful career" becomes "Carrera exitosa", which gets class-success |
| CrossChecks.ScoreBands | wwwroot/app.js:167-179 | the four scores fall in four different bands, from "Información limitada" to "Perfil completo" |

## Left out

- HTTP, URLs, request bodies, prompts, headers, async and the dependency-injection constructors are not modelled. Each upstream call is the response it returned.
- The JSON grammar and serialiser are left out. `parse` and `serialize` are parameters, and duplicate keys in a JSON object are not represented.
- `double` values are not modelled:
  - classifier scores are reals;
  - the completeness score is an integer number of hundredths.
- AudioDb.Score: the rounding of `Math.Round(weight / 3.0, 2)` is stated for the four weights that occur, not for binary floating point in general.
- Strings are sequences of Unicode scalar values, not UTF-16 code units. Lengths such as the 20, 60 and 220 limits count characters.
- `\d` and `\b` are restricted to ASCII. `toLowerCase` lower-cases only ASCII letters.
- `StartsWith("[")` is taken as an ordinal comparison.
- The browser functions are modelled on strings only. Non-string or null inputs, `renderTimeline`, `renderCareerRisk`, the DOM and event handlers are left out.
- Null strings from the .NET side are `Option` values where the code can produce them.
- Heuristic.GenerateSimpleTimeline: the loop is the method `CollectEvents`, and the serialisation is a separate step of the wrapper method.
- CrossChecks.DefaultClassWhenLettersMissing: this lemma is stated over any label. That each of the six other Spanish labels and "No determinada" lacks the letters named in its comment is not proved over the literal strings.
