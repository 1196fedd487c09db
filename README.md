# Legal-document explainer: verified model of the page logic

The page (`script.js`) lets a person choose a PDF legal document, extracts its
text with a PDF library, sends it to a generative-language API with a fixed
prompt, shows the plain-language explanation and can read it aloud. This
project models the decisions and the state the script keeps, and proves what
they guarantee:

- **File intake** (`FileIntake`, `Orchestrator.Page.HandleFiles`): a file is
  accepted exactly when its type is `application/pdf` and its size is at most
  25 MiB. The type is checked first. Acceptance shows the file name and enables
  the analyze button. A rejection alerts with a message for its reason, clears
  the selection and the name, and disables the button.
- **Text assembly** (`Extraction`): the page loop appends, for each page in
  order, its items joined by single spaces and a newline. The text submitted
  is its prefix of length min(|text|, 30000).
- **Reply interpretation** (`Gemini`): the outcome of the request is a `Reply`
  datatype: a rejected fetch, or a status with a body and the parse of that
  body. `Classify` maps it to one `Analysis`, and `Render` gives the string the
  page shows.
- **Narration** (`Narration`, `Orchestrator.Page`): the `vozAtiva` flag
  (`speaking`), the commands sent to the speech engine, the first voice whose
  language starts with `pt`, and the audio toggle's test on the displayed
  text.
- **Orchestration** (`Orchestrator.Page`): a class holding the closure's state:
  the selected files, the file-name label, the button's state and label, the
  result area, the two checkboxes, the flag, the speech log and the utterances
  waiting for the voice list. Each event handler is a method. The invariant
  `Valid()` says two things. A selected file has always passed validation. The
  flag is set only after an utterance was dispatched.

External collaborators are inputs. The PDF library's output is a
`seq<seq<string>>` (pages of text items), or the message of the error it
threw. The HTTP exchange and JSON parsing are a `Reply`. The engine's voice
list is a `seq<Voice>`. Speech playback is an append-only log of `Cancel` and
`Speak` commands.

The code appends a newline after every page, the last one included
(`OneNewlinePerPage`, `EndsWithNewline`).

## Model

| member | source | states |
|---|---|---|
| Text.StartsWith | script.js:97 | definition of `startsWith`: the prefix is no longer than the string and equals its leading part |
| Text.Join | script.js:128 | definition of `join(sep)`: the empty array gives `""`, one item gives itself, otherwise items in order with `sep` between neighbours |
| Text.IsJsWhitespace | script.js:248 | definition of the characters `trim()` removes: ECMAScript WhiteSpace (tab, vertical tab, form feed, space, no-break space, byte order mark, U+1680, U+2000-U+200A, U+202F, U+205F, U+3000) and LineTerminator (line feed, carriage return, U+2028, U+2029) |
| Extraction.PageText | script.js:128 | definition of one page's contribution: its item strings joined by `" "`, then `"\n"` |
| Extraction.ExtractedText | script.js:124-130 | definition of the assembled text: the page texts concatenated in page order, `""` for no pages |
| Gemini.IsOk | script.js:160 | definition of `response.ok`: the status lies in 200-299 |
| Gemini.HttpFailureTail | script.js:165-174 | definition of the tail: ` Detalhes: ` and the message when the body parses to JSON with a truthy `error.message`; otherwise, parse failure included, ` Resposta do servidor: ` and the excerpt |
| Gemini.HttpFailureMessage | script.js:164-174 | definition of the thrown message: `Falha na requisição API (status `, the decimal status, `).`, then the tail |
| Gemini.SuccessAnalysis | script.js:178-199 | never a caught failure; a summary iff the first candidate's parts are usable, and then that text; with no usable parts and a finish reason, the reason's reading (`ReasonAnalysis`); the top-level API error, carrying `error.message`, iff there are no usable parts, no finish reason and a truthy `error.message`; the generic message when none of the three is present |
| Gemini.Classify | script.js:160-205 | a caught failure iff the fetch was rejected, the status is not OK, or the OK body is not JSON; otherwise the reading of the parsed body (the message each failure carries is stated by `FailureCarries`) |
| Gemini.Render | script.js:182-205 | a summary is shown verbatim; a caught failure starts with `Erro ao analisar: `; the top-level API error is `Erro da API: ` followed by its message; the generic result is `Erro: A API retornou uma resposta com estrutura inesperada ou vazia.` |
| Gemini.Interpret | script.js:133-207 | definition of what `analisarComGemini` resolves to: the rendering of the reply's classification |
| Orchestrator.FinalDisplay | script.js:216-240 | definition of the result area after a run: the process-failure message when extraction throws, the empty-PDF message when nothing is submitted, the interpreted reply otherwise |
| Narration.UtteranceFor | script.js:90-100 | definition of the utterance: the text, language `pt-BR`, and the first `pt` voice when there is one (none leaves the platform default) |
| Narration.Narratable | script.js:248-249 | definition of the toggle's test: the trimmed display is non-empty and starts with none of `Aguardando`, `Analisando`, `Erro` |
| Orchestrator.Page.Valid | script.js:62-119 | definition of the invariant every handler keeps: a selected file passed `handleFiles`' validation, and `vozAtiva` is set only after an utterance was dispatched |
| FileIntake.Validate | script.js:62-76 | accepted iff type is exactly `application/pdf` and size <= 25·1024·1024; "wrong type" iff the type differs, whatever the size; "too large" iff a PDF over the limit |
| FileIntake.AlertFor | script.js:62-76 | no alert exactly on acceptance; each rejection reason has its own alert text |
| FileIntake.WrongTypeWhateverSize | script.js:64-75 | the type check comes first: changing the size of a non-PDF does not change its "wrong type" verdict |
| FileIntake.NameIrrelevant | script.js:62-67 | the file name plays no part in the verdict |
| Orchestrator.Page.constructor | script.js:1-11 | the page starts with no selection, the flag clear, nothing sent to the speech engine and nothing waiting for voices; the file-name label, result area, button and checkboxes hold what the markup gave them |
| Orchestrator.Page.HandleFiles | script.js:62-76 | on acceptance the selection is kept, the name shown and the button enabled; otherwise the selection and name are cleared and the button disabled; the alert matches the verdict; a kept selection is a valid one |
| Orchestrator.Page.ResetUpload | script.js:78-82 | selection and name cleared, button disabled, nothing else touched |
| Orchestrator.Page.OnDrop | script.js:45-54 | an empty drop changes nothing; a non-empty one becomes the selection and gets the `HandleFiles` outcome for its first file |
| Orchestrator.Page.OnInputChange | script.js:56-60 | the browser's new selection replaces the old one; a non-empty one is validated as in `HandleFiles` |
| Text.JoinAvoids | script.js:128 | a character absent from every item and from the separator is absent from their join |
| Extraction.ExtractText | script.js:121-131 | the page loop's `textoCompleto` equals the in-order assembly of all pages |
| Extraction.ExtractedTextAppend | script.js:124-130 | assembly is compositional: the text of pages p ++ q is the text of p followed by the text of q |
| Extraction.SinglePage | script.js:128 | one page contributes `join(items, " ") + "\n"` |
| Extraction.OneNewlinePerPage | script.js:128 | when no item holds a newline, the text holds exactly one newline per page |
| Extraction.EndsWithNewline | script.js:128 | the text of a non-empty document ends with a newline |
| Extraction.TwoPageExample | script.js:124-130 | pages `["A","B"]` and `["C"]` give `"A B\nC\n"` |
| Extraction.Truncate | script.js:229 | the submitted text is the prefix of length min(|text|, 30000) |
| Extraction.TruncateShort | script.js:229 | a text of at most 30000 characters is submitted whole |
| Text.LeadingWhitespace | script.js:219 | counts exactly the whitespace characters the string starts with (ECMAScript WhiteSpace and LineTerminator) |
| Text.TrailingStart | script.js:219 | the position after which the string holds only whitespace, with no whitespace just before it |
| Text.Trim | script.js:248 | `trim()` is no longer than its input and neither starts nor ends with whitespace |
| Text.TrimEmptyIff | script.js:219 | `trim()` is empty iff every character is whitespace |
| Text.TrimKeepsPrefix | script.js:248-249 | a prefix whose first and last characters are not whitespace survives `trim()` |
| Orchestrator.Submitted | script.js:216-230 | a request is made iff extraction succeeded with text that is not all whitespace, and what is sent is the prefix of length min(|text|, 30000) |
| Orchestrator.BlankDocumentNotSubmitted | script.js:219-222 | blank extracted text makes no request and ends with the "unable to extract" message, whatever the service would have replied |
| Orchestrator.ProcessFailureMessage | script.js:238-240 | an extraction error shows the process-failure prefix then its message, or the default explanation when the message is empty |
| Orchestrator.Page.ShowResult | script.js:230-236 | the result area holds the interpreted reply; with both checkboxes ticked the speech log, queue and flag are those of `lerTexto(resultado)`, otherwise they are unchanged; `Valid()`'s narration part is kept |
| Orchestrator.Page.OnAnalyzeClick | script.js:209-245 | no selection: nothing changes; otherwise the display and the text sent are those of `FinalDisplay`/`Submitted`, the button ends enabled with label `Analisar Documento`, the result is read aloud only when both boxes are ticked, only a validated file is analyzed |
| Text.Decimal | script.js:164 | the status is rendered as a non-empty string of digits without leading zeros |
| Text.ParseDecimalOfDecimal | script.js:164 | reading the rendered digits back gives the status |
| Gemini.ErrorMessage | script.js:167-168 | the message is used iff the body is an object with an `error` whose `message` is a non-empty string |
| Gemini.FirstCandidate | script.js:180-181 | `candidates[0]` exists iff `candidates` is present and non-empty |
| Gemini.SummaryText | script.js:180-182 | the usable text exists iff the first candidate has content with non-empty parts, and it is the first part's text |
| Gemini.FinishReason | script.js:186-187 | the reason is used iff the first candidate carries a non-empty `finishReason` |
| Gemini.ReasonAnalysis | script.js:189-195 | `SAFETY` gives the safety block, `MAX_TOKENS` the token limit, `OTHER`/`UNSPECIFIED`/`RECITATION` the message naming the reason, anything else the generic message |
| Gemini.Excerpt | script.js:170 | a body of at most 200 characters is kept whole; a longer one becomes its first 200 characters plus `...` (203 characters) |
| Gemini.HttpFailureRendered | script.js:164-175 | on a non-OK status the caught error's whole message is the HTTP failure message, after `Erro ao analisar: ` |
| Gemini.HttpFailureShape | script.js:160-176 | a non-OK result starts with `Erro ao analisar: Falha na requisição API (status N).` and continues with ` Detalhes: ` plus the parsed message, or ` Resposta do servidor: ` plus the excerpt |
| Gemini.HttpStatusReadable | script.js:164 | the status can be read back from the digits after the fixed prefix, up to the closing parenthesis |
| Gemini.UnparsableBodyLikeMessageless | script.js:165-174 | a non-JSON error body is reported exactly as a JSON body without a message |
| Gemini.SummaryVerbatim | script.js:180-182 | with usable parts the result is `parts[0].text` verbatim, whatever else the body holds |
| Gemini.ReasonBeatsTopLevelError | script.js:185-198 | with no usable parts and a finish reason, the top-level error has no influence and is never reported; `SAFETY` and `MAX_TOKENS` give their fixed messages |
| Gemini.ApiFailureIff | script.js:196-197 | the top-level error is reported iff the status is OK, the body is JSON, there are no usable parts and no finish reason, and the error carries a message |
| Gemini.UnknownReasonIsGeneric | script.js:185-195 | a finish reason outside the five listed keeps the generic "estrutura inesperada" message |
| Gemini.OnlySummaryIsVerbatim | script.js:178-200 | the result is a summary passed through verbatim iff the status is OK, the body is JSON and it has usable parts; every other result is text the page composes, which may quote the service's error message, finish reason or body |
| Gemini.NothingUsableIsGeneric | script.js:183-199 | an OK JSON body with no usable parts, no finish reason and no error message (`{}`, `null`) gives the generic "estrutura inesperada ou vazia" message |
| Gemini.FailureCarries | script.js:160-205 | a rejected fetch fails with the rejection's message, a non-OK status with the HTTP failure message, an OK non-JSON body with the syntax error's message |
| Gemini.ExceptionShown | script.js:202-205 | a rejected request or an OK body that is not JSON shows `Erro ao analisar: ` and the exception's message, or the connectivity suggestion when that message is empty |
| Text.IsBlank | script.js:219 | definition of the `trim().length === 0` test: every character is whitespace (equivalent by `TrimEmptyIff`) |
| Narration.IsPortuguese | script.js:97 | definition of the `find` callback: the voice's language starts with `pt` |
| Gemini.Truthy | script.js:167 | definition of JavaScript truthiness of an optional string, as used at script.js:167, 186 and 196: present and not empty |
| Gemini.IncompleteNamesReason | script.js:193-194 | with no usable parts and a finish reason of `OTHER`, `UNSPECIFIED` or `RECITATION`, the result is the "não foi totalmente bem-sucedida" message with that reason embedded after `motivo: ` |
| Gemini.FailedMessage | script.js:202-205 | a caught error shows `Erro ao analisar: ` and its message, or the connectivity suggestion when the message is empty |
| Narration.FindPortugueseVoice | script.js:95-97 | none iff no voice's language starts with `pt`; otherwise the first such voice in list order |
| Narration.ReadAloudCommands | script.js:84-103 | one command per action taken: a single cancel, placed first, exactly when the flag is set; the utterance is dispatched iff audio is on and the voice list is populated; with audio off, nothing but the cancel |
| Narration.SpeakAll | script.js:105-106 | the waiting utterances are dispatched one per text, in order, each with a voice from the new list |
| Narration.AnySpeakAppend | script.js:101-102 | a dispatch in the speech log stays there as commands are appended |
| Narration.WhitespaceNotNarratable | script.js:248-249 | a display holding only whitespace is never narrated |
| Narration.PlaceholderNotNarratable | script.js:249 | a display starting with `Aguardando`, `Analisando` or `Erro` is never narrated |
| Narration.PlainTextNarratable | script.js:248-249 | a display with no surrounding whitespace and no placeholder word at its start is narrated as it is |
| Orchestrator.AnalyzingStatusNotNarratable | script.js:228 | the "Analisando com a IA..." status is not narrated |
| Orchestrator.ProcessFailureNotNarratable | script.js:238-240 | the extraction-failure message is not narrated |
| Orchestrator.ErrorResultsNotNarratable | script.js:185-205 | a caught-error result, the generic message and the top-level API error are not narrated |
| Orchestrator.ExtractingStatusNarratable | script.js:214 | the status shown while the PDF is read passes the toggle's test and would be narrated |
| Orchestrator.EmptyPdfMessageNarratable | script.js:220 | the "unable to extract" message passes the toggle's test |
| Orchestrator.Page.ReadAloud | script.js:84-119 | `lerTexto`: the commands of `ReadAloudCommands` are appended. Audio on with an empty voice list queues the text for the voice list. The flag becomes true only when an utterance is dispatched, and `Valid()` is kept |
| Orchestrator.Page.OnVoicesChanged | script.js:95-108 | every queued utterance is dispatched in order, the queue empties, and the flag is set iff it was set or something was dispatched |
| Orchestrator.Page.OnUtteranceDone | script.js:111-117 | `onend` and `onerror` clear the flag |
| Orchestrator.Page.SetReadAloud | script.js:6 | ticking or unticking "read aloud" changes only that box; the script has no handler for it and reads it at script.js:234 and script.js:249 |
| Orchestrator.Page.OnAudioChange | script.js:247-255 | audio ticked, read-aloud ticked and a narratable display: the trimmed display goes through `lerTexto`; otherwise a set flag gets a cancel and is cleared, and an unset one changes nothing |

## Left out

- Console logging: the `console.error` and `console.warn` calls at script.js:14, 115, 162-163, 184, 188, 203 and 239 have no effect on the page and are not modelled.
- DOM wiring: the drag highlight, `preventDefaults`, `alert` display and the newline-to-`<br>` rendering (script.js:20-43, 232). The model keeps the result string itself as the displayed text. So after a result is rendered it does not model how `textContent` reads back with the line breaks removed, nor any markup in the result being parsed.
- The spinner markup in the busy label (script.js:213). The label is modelled as the text `Analisando...`.
- `fetch`, `response.text()`/`json()` and `JSON.parse` (script.js:137-178) are inputs: a `Reply`. A rejection of `response.text()` is covered by `FetchFailed`, which stands for any exception raised before a status is interpreted, including a rejected `response.text()`.
- JSON shapes the code does not expect are outside the `Payload` datatype: null candidates or parts, and non-string `text`, `message` or `finishReason` values. The code would throw a `TypeError` on some of these and carry on with others.
- The PDF library (script.js:122-127) is an input: its pages and items, or the message of the error it threw.
- Speech playback, the utterance's rate 0.9 and error logging (script.js:90-117) are left out. The model keeps the commands sent and the flag. The platform's own timing of `onend`/`onerror`, including for a cancelled utterance, is not modelled: `OnUtteranceDone` may be called at any time.
- The no-op `voiceschanged` listener at startup (script.js:257-259) does nothing and is not modelled.
- The startup configuration check and the URL composition (script.js:13-18, 134). They depend on injected configuration.
- The prompt wording (script.js:143-154). `sent` is the truncated text that the script puts after that fixed prompt.
- The alert for text over 1,000,000 characters (script.js:223-225). It does not change what is sent, which is always at most 30000 characters.
- Asynchrony: `OnAnalyzeClick` runs the click handler to completion in one step. The interim statuses at its suspension points are therefore not states that a toggle event can see in the model. The lemmas on `Narratable` cover those statuses directly.
- Character counts: JavaScript's `length`, `slice` and `substring` count UTF-16 code units. The model counts Dafny characters (Unicode scalar values), so the 30000- and 200-character cuts agree only on text without astral-plane characters.
- Text.Trim: its own ensures states only that the result has no whitespace at either end. Which characters it keeps is stated by `Text.LeadingWhitespace` and `Text.TrailingStart`, and the empty case by `Text.TrimEmptyIff`.
- The whitespace set is that of the ECMAScript specification with the Unicode "Space_Separator" characters listed explicitly. Any future addition to that category is not tracked.
