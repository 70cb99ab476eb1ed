# Medical OCR proof of concept: a verified model

This project models the core of a proof-of-concept web app. The user picks a photo of a prescription. The browser runs OCR on it and cleans up the recognised text. A small relay server then asks a Gemini model for a plain-English explanation of that text.

The model covers three parts:

- **The OCR-text cleaner** (`src/App.jsx`) is modelled as functions. It splits the text on line feeds, collapses each whitespace run in a line to one space, trims each line, drops a blank line that follows a blank line, joins the lines and trims the result. An empty result becomes the placeholder `(No text detected)`.
- **The client workflow** (`src/App.jsx`) is modelled twice:
  - as a transition function `Workflow.Step` over the seven pieces of component state;
  - as the class `Workflow.Session`, with one method per handler. Each method is proved to perform the matching `Step`.
  The two async handlers are each split at their `await` into a start method and a finish method. The Run OCR and Summarize buttons are disabled unless their guard holds. `Workflow.Dispatch` and the `Press*` methods model this: pressing a disabled button does nothing.
- **The relay server** (`api/server.js`) is modelled as functions: `GET /health` and `POST /api/summarize-med`. The Gemini SDK call is a parameter of the handler, so the model constrains everything the handler itself decides:
  - validation;
  - the exact prompt;
  - the model name;
  - which response text is chosen;
  - how failures map to HTTP 500.

The modules, from the bottom up:

- `JsValues` holds optional fields, string truthiness (`||`) and `String(e)` for thrown values.
- `JsStrings` holds the `\s` whitespace set, `trim` and `replace(/\s+/g, " ")`.
- `Cleaner` builds the cleaner from those.
- `Relay` is the server.
- `Workflow` is the client.
- `ClientRelay` connects the client's request to the relay's response.

What the proofs establish:

- The cleaner only removes whitespace: the non-whitespace characters come through unchanged and in order.
- Each line becomes its words separated by single spaces: every whitespace run between two words becomes exactly one space.
- The cleaner returns an empty string exactly for all-whitespace input.
- Its output has these properties:
  - it is trimmed;
  - every line is trimmed, with single spaces;
  - no two blank lines are adjacent.
- The cleaner is idempotent. Its fixed points are exactly the texts with the properties above.
- The text shown after OCR is never empty and always clean.
- The relay embeds the trimmed text verbatim in a fixed prompt, and the prompt can be decoded back to that text.
- The workflow keeps its invariant in every reachable state:
  - there is no OCR text while OCR runs;
  - there is no explanation while a summarize call is in flight;
  - the OCR text is always clean.
- A summarize started from the page always reaches Gemini: the relay never answers 400 to the client.

## Model

| member | source | states |
|---|---|---|
| JsValues.OrElse | medical-ocr-web-poc/src/App.jsx:107 | `a \|\| b` for a string field: the field's value when it is a non-empty string, otherwise the fallback |
| JsValues.Stringify | medical-ocr-web-poc/src/App.jsx:84 | `String(e)` of an `Error` is `name: message` when both are non-empty, the message when the name is empty, and the name when the message is empty; so it is empty exactly when both are; any other thrown value gives its own text |
| JsValues.MessageOf | medical-ocr-web-poc/api/server.js:58 | `err?.message`: an `Error`'s message, or the `message` property any other thrown value carries |
| JsStrings.NonWs | medical-ocr-web-poc/src/App.jsx:75-80 | the non-whitespace characters of a string, in order: never longer than the string, and containing no whitespace |
| JsStrings.TrimStart | medical-ocr-web-poc/src/App.jsx:77 | the result has no leading whitespace, and it is strictly shorter whenever the input starts with whitespace |
| JsStrings.TrimEnd | medical-ocr-web-poc/src/App.jsx:77 | the result has no trailing whitespace and keeps the first character |
| JsStrings.TrimStartIsSuffix | medical-ocr-web-poc/src/App.jsx:77 | what trimming the start removes is a prefix made only of whitespace; the rest is kept as is |
| JsStrings.TrimEndIsPrefix | medical-ocr-web-poc/src/App.jsx:77 | what trimming the end removes is a suffix made only of whitespace |
| JsStrings.TrimIsInfix | medical-ocr-web-poc/api/server.js:20 | `trim` removes exactly a whitespace prefix and a whitespace suffix: the input is whitespace, then the trimmed text verbatim, then whitespace |
| JsStrings.Trim | medical-ocr-web-poc/src/App.jsx:77 | `trim` yields a string that is no longer than its input and neither starts nor ends with whitespace |
| JsStrings.TrimEmptyIff | medical-ocr-web-poc/src/App.jsx:23 | `s.trim()` is empty exactly when `s` is all whitespace, which is what makes `!!ocrText.trim()` a non-blank test |
| JsStrings.TrimWrapped | medical-ocr-web-poc/api/server.js:25-41 | trimming whitespace + x + whitespace, where x is already trimmed, gives back exactly x |
| JsStrings.TrimKeepsNonWs | medical-ocr-web-poc/src/App.jsx:77 | `trim` removes only whitespace: the non-whitespace characters are unchanged |
| JsStrings.TrimKeepsSpacing | medical-ocr-web-poc/src/App.jsx:77 | trimming a line whose whitespace is single spaces keeps it that way |
| JsStrings.CollapseWs | medical-ocr-web-poc/src/App.jsx:77 | `replace(/\s+/g, " ")` leaves only single spaces as whitespace, never two adjacent; it is empty exactly when the input is, and it starts with whitespace exactly when the input does; TrimCollapseIsUnwords states what it computes |
| JsStrings.CollapseKeepsNonWs | medical-ocr-web-poc/src/App.jsx:77 | collapsing whitespace keeps every other character, in order |
| JsStrings.CollapseFixedIff | medical-ocr-web-poc/src/App.jsx:77 | collapsing leaves a string unchanged exactly when its whitespace is already single, non-adjacent spaces |
| JsStrings.NonWsEmptyIff | medical-ocr-web-poc/src/App.jsx:82 | a string has no non-whitespace character exactly when it is all whitespace |
| JsStrings.TakeWord | medical-ocr-web-poc/src/App.jsx:77 | the longest whitespace-free prefix: a prefix of the input with no whitespace, followed by whitespace or the end, and non-empty when the input starts with a non-whitespace character |
| JsStrings.Words | medical-ocr-web-poc/src/App.jsx:77 | the maximal runs of non-whitespace characters of a line, in order; WordsAreWords, WordsKeepNonWs, WordsOfSeparated and WordsOfUnwords state what it computes |
| JsStrings.Unwords | medical-ocr-web-poc/src/App.jsx:77 | words joined by single spaces; WordsOfUnwords states that `Words` reads them back |
| JsStrings.WordsAreWords | medical-ocr-web-poc/src/App.jsx:77 | every entry of `Words(s)` is non-empty and holds no whitespace |
| JsStrings.WordsKeepNonWs | medical-ocr-web-poc/src/App.jsx:77 | concatenated, the words of a string are exactly its non-whitespace characters in order |
| JsStrings.WordsOfSeparated | medical-ocr-web-poc/src/App.jsx:77 | words separated by any non-empty whitespace runs are read back exactly by `Words` |
| JsStrings.WordsOfUnwords | medical-ocr-web-poc/src/App.jsx:77 | splitting into words undoes joining words with single spaces |
| JsStrings.TrimCollapseIsUnwords | medical-ocr-web-poc/src/App.jsx:77 | `replace(/\s+/g, " ").trim()` yields the line's words separated by single spaces: every whitespace run between two words becomes exactly one space, and leading and trailing runs disappear |
| Cleaner.Split | medical-ocr-web-poc/src/App.jsx:76 | `split("\n")` always gives at least one piece, and no piece contains a line feed |
| Cleaner.JoinSplit | medical-ocr-web-poc/src/App.jsx:76-79 | joining the pieces of `split("\n")` with line feeds gives back the original text |
| Cleaner.SplitJoin | medical-ocr-web-poc/src/App.jsx:76-79 | splitting a join of line-feed-free lines gives back those lines |
| Cleaner.Join | medical-ocr-web-poc/src/App.jsx:79 | `join("\n")`; JoinSplit and SplitJoin state that it inverts `split("\n")` |
| Cleaner.NormalizeLine | medical-ocr-web-poc/src/App.jsx:77 | each normalised line is the line's words separated by single spaces; so it is trimmed, its whitespace is single non-adjacent spaces, and it keeps the line's non-whitespace characters |
| Cleaner.NormalizeAll | medical-ocr-web-poc/src/App.jsx:77 | the `map` keeps the number of lines; NormalizeAllNormal and NonWsNormalizeAll state what it computes |
| Cleaner.NormalizeSeparated | medical-ocr-web-poc/src/App.jsx:77 | a line of words separated by any whitespace runs normalises to the same words separated by single spaces |
| Cleaner.NormalizeAllNormal | medical-ocr-web-poc/src/App.jsx:77 | after the `map`, every line is normalised |
| Cleaner.DropRepeatedBlanks | medical-ocr-web-poc/src/App.jsx:78 | the `filter` with the predecessor taken from the mapped array; DropBlanks, BlankRunReduced, DropNoBlankRun, DropKeepsUnrepeated and NonWsDrop state what it computes |
| Cleaner.DropBlanks | medical-ocr-web-poc/src/App.jsx:78 | a run of blank lines leaves one blank line, or none if the line before was already blank |
| Cleaner.BlankRunReduced | medical-ocr-web-poc/src/App.jsx:78 | a run of blank lines between non-blank lines is reduced to exactly one blank line, and the lines on either side are filtered independently |
| Cleaner.DropFirstNotBlank | medical-ocr-web-poc/src/App.jsx:78 | for input that does not start with a blank line, the predecessor of the first line does not matter |
| Cleaner.DropNoBlankRun | medical-ocr-web-poc/src/App.jsx:78 | after the `filter`, no two adjacent lines are both blank |
| Cleaner.DropKeepsNormal | medical-ocr-web-poc/src/App.jsx:78 | the `filter` keeps every line's shape, because it only removes lines |
| Cleaner.DropKeepsFirst | medical-ocr-web-poc/src/App.jsx:78 | the first line survives the `filter` unless it is blank after a blank line |
| Cleaner.DropKeepsUnrepeated | medical-ocr-web-poc/src/App.jsx:78 | the `filter` changes nothing in lines with no two adjacent blanks |
| Cleaner.NonWsDrop | medical-ocr-web-poc/src/App.jsx:78 | the `filter` removes only blank lines: the non-whitespace text is unchanged |
| Cleaner.Clean | medical-ocr-web-poc/src/App.jsx:75-80 | the whole pipeline; CleanKeepsNonWs, CleanEmptyIff, CleanIsClean, CleanIdempotent, CleanFixedIff and CleanSeparated state what it computes |
| Cleaner.CleanOneLine | medical-ocr-web-poc/src/App.jsx:75-80 | a text without line feeds is cleaned exactly as its single line is normalised |
| Cleaner.CleanSeparated | medical-ocr-web-poc/src/App.jsx:75-80 | a one-line text of words separated by whitespace runs without line feeds is cleaned to the words separated by single spaces |
| Cleaner.CleanCollapsesRuns | medical-ocr-web-poc/src/App.jsx:75-80 | `Take   2  tabs<TAB>daily` is cleaned to `Take 2 tabs daily` |
| Cleaner.CleanKeepsNonWs | medical-ocr-web-poc/src/App.jsx:75-80 | the cleaner keeps every non-whitespace character of the OCR text, in order, and adds none |
| Cleaner.CleanEmptyIff | medical-ocr-web-poc/src/App.jsx:75-82 | the cleaned text is empty, so the placeholder is shown, exactly when the OCR text is all whitespace |
| Cleaner.CleanIsClean | medical-ocr-web-poc/src/App.jsx:75-80 | the cleaned text is trimmed, each of its lines is trimmed with single spaces, and it has no two adjacent blank lines |
| Cleaner.CleanFixesClean | medical-ocr-web-poc/src/App.jsx:75-80 | cleaning a text that is already clean changes nothing |
| Cleaner.CleanIdempotent | medical-ocr-web-poc/src/App.jsx:75-80 | cleaning twice is the same as cleaning once |
| Cleaner.CleanFixedIff | medical-ocr-web-poc/src/App.jsx:75-80 | the texts the cleaner leaves unchanged are exactly the clean texts |
| Cleaner.PlaceholderIsClean | medical-ocr-web-poc/src/App.jsx:82 | the placeholder `(No text detected)` is itself a clean text |
| Cleaner.ShownText | medical-ocr-web-poc/src/App.jsx:73-82 | the OCR text shown is never empty and always clean: the placeholder for all-whitespace input, otherwise the cleaned text |
| Relay.Health | medical-ocr-web-poc/api/server.js:10 | `/health` answers 200 with `{ ok: true }` |
| Relay.Prompt | medical-ocr-web-poc/api/server.js:25-41 | the trimmed prompt is the fixed instructions, the opening `"""`, the text verbatim and the closing `"""`; it neither starts nor ends with whitespace |
| Relay.PromptTemplate | medical-ocr-web-poc/api/server.js:25-41 | the template literal before `.trim()`; Prompt states what trimming it yields |
| Relay.PromptEmbedsText | medical-ocr-web-poc/api/server.js:25-41 | the text can be read back from the prompt between the fixed head and the closing delimiter |
| Relay.PromptInjective | medical-ocr-web-poc/api/server.js:25-41 | different texts give different prompts |
| Relay.ResponseText | medical-ocr-web-poc/api/server.js:48-51 | the reply text is `resp.text` if non-empty, else `resp.response.text()` if non-empty, else empty; it is empty exactly when both are absent or empty |
| Relay.Details | medical-ocr-web-poc/api/server.js:58 | `String(err?.message \|\| err)`: the thrown value's `message` when it is a non-empty string, whether or not the value is an `Error`; otherwise `String(err)`; non-empty for any `Error` with a name or a message |
| Relay.SummarizeMed | medical-ocr-web-poc/api/server.js:18-61 | the relay calls Gemini exactly when the trimmed `ocrText` is non-blank, and otherwise answers 400 `Missing ocrText`; the call uses `gemini-3-flash-preview` and one user turn holding the prompt for the trimmed text; success answers 200 with the chosen text, a throw answers 500 with `Gemini call failed` and the details; no other status occurs |
| Relay.SentTextIsTrimmed | medical-ocr-web-poc/api/server.js:20-41 | for a non-blank posted text, the text embedded in the prompt is that text trimmed: the posted text is whitespace, then the embedded text verbatim, then whitespace |
| Workflow.SummaryShown | medical-ocr-web-poc/src/App.jsx:104-109 | a non-ok reply shows `Error: ` followed by the first non-empty of `error`, `details` or `Summarize failed`; an ok reply shows its `text` or `(No response)`, never empty; a failed fetch shows `String(e)` |
| Workflow.CanRunOcr | medical-ocr-web-poc/src/App.jsx:17-20 | `canRunOcr`; InitialInv, RunOcrWhileRunning and PickThenOcr state when it holds |
| Workflow.CanSummarize | medical-ocr-web-poc/src/App.jsx:22-25 | `canSummarize`; CanSummarizeIff states when it holds |
| Workflow.Reset | medical-ocr-web-poc/src/App.jsx:27-32 | `resetOutputs`; ResetOnPickOrClear states its effect |
| Workflow.RawText | medical-ocr-web-poc/src/App.jsx:73 | `result?.data?.text ?? ""`; OcrSettles states how it reaches the OCR text |
| Workflow.Step | medical-ocr-web-poc/src/App.jsx:27-113 | the effect of each handler; StepInv, RunInv, ResetOnPickOrClear, RunOcrStarts, OcrSettles, SummarizeStarts and SummarizeSettles state it |
| Workflow.Dispatch | medical-ocr-web-poc/src/App.jsx:273 | the `disabled={!canRunOcr}` and `disabled={!canSummarize}` buttons (lines 273 and 285); RunOcrWhileRunning and SummarizeWhileSummarizing state that a disabled button does nothing |
| Workflow.InitialInv | medical-ocr-web-poc/src/App.jsx:7-25 | the initial state satisfies the invariant, and both buttons start disabled |
| Workflow.StepInv | medical-ocr-web-poc/src/App.jsx:27-113 | every handler keeps the invariant: no OCR text while OCR runs, no explanation while a summarize call is in flight, and the OCR text always clean |
| Workflow.RunInv | medical-ocr-web-poc/src/App.jsx:27-113 | every state reachable by any sequence of user actions and completions keeps the invariant |
| Workflow.CanSummarizeIff | medical-ocr-web-poc/src/App.jsx:22-25 | under the invariant, Summarize is enabled exactly when there is OCR text and no summarize call is in flight |
| Workflow.ResetOnPickOrClear | medical-ocr-web-poc/src/App.jsx:27-53 | picking a file or clearing empties the error, progress, OCR text and explanation; the image becomes the picked file, or none; the busy flags are untouched; Summarize is disabled afterwards |
| Workflow.RunOcrStarts | medical-ocr-web-poc/src/App.jsx:55-62 | Run OCR without an image changes nothing; with one, it sets OCR running and clears the error, progress and both texts |
| Workflow.RunOcrWhileRunning | medical-ocr-web-poc/src/App.jsx:17-20 | pressing Run OCR while OCR runs does nothing |
| Workflow.SummarizeWhileSummarizing | medical-ocr-web-poc/src/App.jsx:22-25 | pressing Summarize while a summarize call is in flight does nothing |
| Workflow.OcrSettles | medical-ocr-web-poc/src/App.jsx:64-87 | when OCR settles it stops running. Success shows the cleaned text or the placeholder, which enables Summarize unless a call is in flight. Failure shows `String(e)` as the error and leaves the OCR text empty |
| Workflow.OcrFailureShowsError | medical-ocr-web-poc/src/App.jsx:83-84 | an OCR failure thrown as an `Error` with a name or a message always puts a non-empty error on screen |
| Workflow.SummarizeStarts | medical-ocr-web-poc/src/App.jsx:90-95 | Summarize with all-whitespace OCR text changes nothing; otherwise it marks a call in flight and clears the error and the explanation |
| Workflow.SummarizeSettles | medical-ocr-web-poc/src/App.jsx:97-112 | when the summarize call settles it is no longer in flight. An ok reply shows its text or `(No response)`. Anything else shows an error and leaves the explanation empty, and a non-ok reply's error is never empty |
| Workflow.PickThenOcr | medical-ocr-web-poc/src/App.jsx:34-88 | picking an image and running OCR to success shows the cleaned text, clears the error and the explanation, and enables both buttons |
| Workflow.Session.constructor | medical-ocr-web-poc/src/App.jsx:7-15 | the initial state: no image, not running, progress 0, all texts empty, not summarizing |
| Workflow.Session.RunOcrEnabled | medical-ocr-web-poc/src/App.jsx:17-20 | `canRunOcr`: an image is picked and OCR is not running |
| Workflow.Session.SummarizeEnabled | medical-ocr-web-poc/src/App.jsx:22-25 | `canSummarize`: the OCR text is non-blank and no summarize call is in flight |
| Workflow.Session.ResetOutputs | medical-ocr-web-poc/src/App.jsx:27-32 | clears the error, progress, OCR text and explanation, and nothing else |
| Workflow.Session.PickFile | medical-ocr-web-poc/src/App.jsx:34-46 | `onPickFile` performs the pick-file transition and keeps the invariant |
| Workflow.Session.Clear | medical-ocr-web-poc/src/App.jsx:48-53 | `onClear` performs the clear transition and keeps the invariant |
| Workflow.Session.StartOcr | medical-ocr-web-poc/src/App.jsx:55-65 | `runOcr` up to the OCR call performs the start transition and hands the selected image to the engine |
| Workflow.Session.ReportProgress | medical-ocr-web-poc/src/App.jsx:66-70 | the progress callback sets the progress and nothing else |
| Workflow.Session.FinishOcr | medical-ocr-web-poc/src/App.jsx:73-87 | `runOcr` after the OCR call stores the cleaned text or the error, clears the running flag, and keeps the invariant |
| Workflow.Session.StartSummarize | medical-ocr-web-poc/src/App.jsx:90-102 | `summarizeMedication` up to the fetch posts the OCR text unchanged exactly when it is non-blank, performing the start transition |
| Workflow.Session.FinishSummarize | medical-ocr-web-poc/src/App.jsx:104-112 | `summarizeMedication` after the fetch shows the explanation or the error, clears the in-flight flag, and keeps the invariant |
| Workflow.Session.PressRunOcr | medical-ocr-web-poc/src/App.jsx:17-20 | the Run OCR button starts OCR exactly when `canRunOcr` holds, and otherwise changes nothing |
| Workflow.Session.PressSummarize | medical-ocr-web-poc/src/App.jsx:22-25 | the Summarize button posts exactly when `canSummarize` holds, and otherwise changes nothing |
| ClientRelay.ReplyFields | medical-ocr-web-poc/api/server.js:53-59 | the JSON fields the client reads from each relay body: `text` on success, `error` and `details` on failure |
| ClientRelay.Received | medical-ocr-web-poc/src/App.jsx:98-105 | `resp.ok` holds exactly for 2xx statuses, and the data is the body's fields |
| ClientRelay.RelayReplyShown | medical-ocr-web-poc/src/App.jsx:104-111 | for a request that reached Gemini, the client shows Gemini's text (or `(No response)`) and keeps the error as it was, or after a failed call shows `Error: Gemini call failed` with no explanation; the relay's `details` never reach the screen |
| ClientRelay.SummarizeRoundTrip | medical-ocr-web-poc/src/App.jsx:90-112 | a summarize started from the page reaches Gemini with the OCR text embedded unchanged, so the relay never answers 400. On reply, Gemini's text (or `(No response)`) is shown with no error, or a failed Gemini call shows `Error: Gemini call failed` with no explanation |

## Left out

- The OCR engine (`Tesseract.recognize`) is not modelled. Its result is a parameter of `FinishOcr`: the optional `data.text`, or a thrown value.
- The progress callback's `Math.round(m.progress * 100)` is left out because it uses floating point. `ReportProgress` takes the already-rounded percentage.
- `imageUrl`, `URL.createObjectURL`, `fileInputRef` and resetting the file input are left out: they only drive the preview and the file-input widget, and no guard or output depends on them.
- Network I/O and JSON parsing are left out:
  - `fetch` and `resp.json()`, including its `.catch(() => ({}))`, are represented by `SummarizeOutcome`, whose data fields may all be absent;
  - the relay's request body is represented by an optional string.
- JSON values that are not strings are left out. A truthy non-string `ocrText` makes the relay's `.trim()` throw, which yields a 500. A non-string `text`, `error` or `details` would change what the client displays.
- Relay.Details: a thrown value whose `message` is truthy but not a string (a number, an object) is not modelled; the model gives thrown values only a string `message` or none.
- The Gemini SDK call is a function parameter (`generate`). Its transport, API key, `console.error` logging, and a `response.text()` that itself throws are not modelled.
- Express, CORS, the 2 MB body limit, `dotenv` and `app.listen` are not modelled.
- JSX rendering and styles are not modelled, apart from the two buttons' `disabled` attributes.
- Concurrency is left out. Completions are events applied one at a time. The model does not pin down when a completion arrives relative to other user actions. Like the source, it does not discard a stale OCR or summarize result that arrives after the user picked another file or cleared.
- Strings are sequences of Unicode scalar values, not UTF-16 code units. Whitespace is the fixed ECMAScript WhiteSpace and LineTerminator set.
