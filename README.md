# Universal RAG chatbot: request gatekeeping, input sanitising, settings and client retries in Dafny

This project models the parts of the retrieval-augmented chatbot that are its own logic rather than calls into LangChain, Chroma, OpenAI, FastAPI or React:

- **The security middleware's decision** (`SecurityMiddleware.dispatch`). For each request the middleware either rejects it, or forwards it. It rejects by raising an HTTPException: 413 for an oversized body, 401 for a missing or wrong API key, and 500 when the Content-Length header is not a number. The model states the status and error text of that exception. The health path `/` and development mode skip the key check. They do not skip the size check. Module `Security`.
- **The input sanitiser** (`sanitize_input`). It deletes `<…>` tag fragments, then script blocks, then the characters `< > { } ( ) [ ] \ /`. It then strips surrounding whitespace and truncates to `MAX_QUESTION_LENGTH`. Module `Security`.
- **The settings record and the CORS_ORIGINS validator** (`Settings`, `parse_cors_origins`). The validator cleans the value and takes a JSON path for bracketed values. Otherwise it splits on commas, trims, drops empties and falls back to the default origin. `DEVELOPMENT_MODE` is derived from `ENVIRONMENT`. Module `Config`.
- **The context formatter and the prompt templates** (`format_retrieved_documents`, the system and human templates). Retrieved chunks are joined with blank lines, or replaced by a placeholder when none were found. The result fills the system template's only `{context}` slot, and the question is the human message. Module `Generator`.
- **The frontend API client** (`fetchWithRetry`, `generateResponse`, `chatResponse`, `checkHealth`). It maps failed HTTP statuses to fixed messages, retries every failure up to `MAX_RETRIES` times, wraps what it throws and reports health. Module `Api`.

Everything is pure, as in the source: datatypes, functions and lemmas. Module `Text` holds the Python string operations the backend relies on:

- `str.strip`, with the whitespace set of `str.isspace`;
- `str.split` on one character;
- `str.join`.

It also defines the subsequence relation, which the model uses to state that a step only deletes characters.

Outside dependencies become parameters or oracles:

- Python's `json.loads` becomes a function argument `loads` returning a list of items, a non-list, a decoding error or another exception.
- Python's `int()` on the Content-Length header becomes an `Option<int>` stored beside the raw header.
- The network seen by the frontend becomes `network(url)(i)`: the outcome of the i-th attempt at that URL.

Some behaviours of the code are worth stating outright:

- A JSON array with no truthy element (`"[]"`) yields an empty origin list (`Config.EmptyJsonArrayGivesNoOrigins`).
- A bracketed value that is not valid JSON, or not a list, is comma-split as it stands, brackets included (`Config.MalformedJsonKeepsBrackets`).
- The size check runs before the `/` bypass, so the middleware rejects an oversized request to `/` as well (`Security.OversizeRejectedBeforeBypasses`).
- The rate-limit settings are plain strings. No validator or limiter exists for them.

## Model

| member | source | states |
|---|---|---|
| Security.Dispatch | chatbot-backend/security.py:10-89 | The middleware's decision. A TooLarge rejection carries MAX_REQUEST_SIZE and a declared size above it; both key rejections name API_KEY_HEADER. Its behaviour is stated by ForwardedExactly, KeyCheck, BypassesIgnoreKey, OversizeRejectedBeforeBypasses and UnreadableLengthIsInternalError. |
| Security.ErrorText | chatbot-backend/security.py:24-89 | The "error" text of each rejection's detail. KeyCheck, OversizeRejectedBeforeBypasses and UnreadableLengthIsInternalError state which text goes with which request. |
| Security.OversizeRejectedBeforeBypasses | chatbot-backend/security.py:21-37 | A non-empty Content-Length above MAX_REQUEST_SIZE gives TooLarge carrying the limit and the declared size, whatever the path and the key; its status is 413 and its error text "Request too large". |
| Security.UnreadableLengthIsInternalError | chatbot-backend/security.py:20-89 | A non-empty Content-Length on which int() raises gives the internal error, status 500 with error text "Internal server error", on every path and in every mode. |
| Security.BypassesIgnoreKey | chatbot-backend/security.py:33-43 | Within the size limit, the health path or development mode forwards the request, and changing the key header does not change that. |
| Security.KeyCheck | chatbot-backend/security.py:45-68 | Outside the bypasses: MissingKey iff the header is absent or empty; InvalidKey iff it is present, non-empty and different from API_KEY; Forward iff it equals a non-empty API_KEY; every rejection is a 401 naming the header, with error text "API key is required" or "Invalid API key" respectively. |
| Security.ForwardedExactly | chatbot-backend/security.py:20-74 | A request is forwarded iff its length is readable and within the limit, and it is for `/`, or development mode is on, or it carries the configured non-empty key. |
| Security.EmptyKeyLocksProtectedRoutes | chatbot-backend/security.py:46-65 | With API_KEY empty and development mode off, no request to a path other than `/` is forwarded. |
| Security.DefaultSettingsForwardWithinLimit | chatbot-backend/security.py:39-43 | With ENVIRONMENT unset, development mode is on, so every request within the size limit is forwarded whatever key it carries. |
| Security.Status | chatbot-backend/security.py:24-89 | A rejection's status is 413 exactly for TooLarge, 401 exactly for the two key failures, and 500 exactly for the internal error. |
| Security.TagEnd | chatbot-backend/security.py:104 | The end of a tag match is the first `>` in the string, at index 2 or later. |
| Security.StripTags | chatbot-backend/security.py:104 | The tag substitution as a left-to-right scan. StripTagsDeletesTag and StripTagsKeepsNonTag together fix it on every input; StripTagsLeavesNoTag, StripTagsIsSubsequence and StripTagsWithoutAngle state its behaviour. |
| Security.StripTagsDeletesTag | chatbot-backend/security.py:104 | A `<`, a non-empty run without `>` and the closing `>` at the start are deleted together, and the scan resumes right after them. |
| Security.StripTagsKeepsNonTag | chatbot-backend/security.py:104 | Where no match starts (a character other than `<`, a final `<`, `<>`, or a `<` with no `>` after it), the character is kept and the scan moves on by one. |
| Security.StripTagsLeavesNoTag | chatbot-backend/security.py:104 | After the tag substitution, no match of `<[^>]+>` starts anywhere in the text. |
| Security.StripTagsIsSubsequence | chatbot-backend/security.py:104 | The tag substitution only deletes characters. |
| Security.StripTagsWithoutAngle | chatbot-backend/security.py:104 | Text without `<` passes the tag substitution unchanged. |
| Security.NoTagsAt | chatbot-backend/security.py:104-106 | Text with no tag at its start or after it has no tag at any position. |
| Security.ClosingScriptIsTag | chatbot-backend/security.py:106 | `</script>`, which ends every match of the script-block pattern, is itself a match of `<[^>]+>`. |
| Security.NoScriptBlockSurvives | chatbot-backend/security.py:104-106 | No `</script>` occurs in the output of the tag substitution, so the script-block substitution never matches and is the identity there. |
| Security.RemoveDenied | chatbot-backend/security.py:108 | The result contains none of `< > { } ( ) [ ] \ /`. |
| Security.RemoveDeniedKeepsOthers | chatbot-backend/security.py:108 | Every other character keeps its number of occurrences and the result is a subsequence of the input. |
| Security.RemoveDeniedWithoutDenied | chatbot-backend/security.py:108 | Text without denied characters is unchanged. |
| Security.Truncate | chatbot-backend/security.py:112-113 | The result is a prefix of the text, of length min(len, m) for m >= 0 and max(0, len + m) for a negative m, as Python's slice gives. |
| Security.Sanitize | chatbot-backend/security.py:91-116 | Empty input gives ""; the result has no denied character, is at most MAX_QUESTION_LENGTH long when that is non-negative, and does not start with whitespace. |
| Security.SanitizeIsSubsequence | chatbot-backend/security.py:104-113 | The sanitised text is a subsequence of the input. |
| Security.SanitizeKeepsCleanText | chatbot-backend/security.py:101-116 | Text with no denied character, no surrounding whitespace and within the limit is returned unchanged. |
| Security.SanitizeIdempotentWithoutTrailingSpace | chatbot-backend/security.py:110-113 | A second pass changes nothing when the first result does not end in whitespace. |
| Security.TrailingSpaceBreaksIdempotence | chatbot-backend/security.py:110-113 | A first result ending in whitespace is changed by a second pass. |
| Security.TruncationWitness | chatbot-backend/security.py:110-113 | `"a b"` with a limit of 2 sanitises to `"a "`, which a second pass changes: sanitising is not idempotent. |
| Config.DevelopmentMode | chatbot-backend/config.py:17-18 | Development mode is on iff ENVIRONMENT is unset or equals "development". |
| Config.DefaultSettings | chatbot-backend/config.py:17-26 | Development mode follows ENVIRONMENT, ENVIRONMENT and API_KEY take the variable's value when set, API_KEY defaults to "", the key header is X-API-Key, and the size limits are 1048576 bytes and 500 characters. |
| Config.CleanValue | chatbot-backend/config.py:44 | Surrounding whitespace, then double quotes, then single quotes stripped. MalformedJsonKeepsBrackets and CommaListRoundTrip state its effect on the validator. |
| Config.TrimAll | chatbot-backend/config.py:55 | Each piece stripped of surrounding whitespace, element by element. TrimAllKeepsClean states that clean pieces are unchanged. |
| Config.StringItem | chatbot-backend/config.py:50 | A JSON string element is truthy iff it is non-empty. |
| Config.DropEmpty | chatbot-backend/config.py:56 | The filtered list is no longer than its input and holds only non-empty strings; DropEmptyAppend and DropEmptySingle fix its contents and order. |
| Config.DropEmptyAppend | chatbot-backend/config.py:56 | Filtering a concatenation concatenates the filtered parts, so the filter keeps input order. |
| Config.DropEmptySingle | chatbot-backend/config.py:56 | One string is kept exactly when it is non-empty; with DropEmptyAppend, every non-empty string is kept, in order, and only those. |
| Config.DropEmptyNothingLeft | chatbot-backend/config.py:56-60 | Filtering leaves nothing iff every piece is empty, which is when the default is used. |
| Config.DropEmptyEnds | chatbot-backend/config.py:56 | A non-empty first or last piece stays first or last, so the filter keeps input order at both ends. |
| Config.DropEmptyKeepsCommaFree | chatbot-backend/config.py:56 | Filtering comma-free pieces leaves comma-free pieces. |
| Config.DropEmptyKeepsNonEmpty | chatbot-backend/config.py:56 | A list of non-empty strings passes the filter unchanged. |
| Config.CommaOrigins | chatbot-backend/config.py:55-62 | The comma path never returns an empty list. |
| Config.CommaOriginsAreClean | chatbot-backend/config.py:55-62 | Every origin of the comma path is non-empty and contains no comma. |
| Config.JsonOrigins | chatbot-backend/config.py:50 | The JSON path returns at most one origin per element, each with no surrounding whitespace; JsonOriginsAppend and JsonOriginsSingle fix its contents and order. |
| Config.JsonOriginsAppend | chatbot-backend/config.py:50 | The origins of a concatenation of elements are the origins of its parts, in order. |
| Config.JsonOriginsSingle | chatbot-backend/config.py:50 | One element gives its stripped str() when truthy and nothing otherwise; with JsonOriginsAppend, every truthy element is kept, stripped, in order. |
| Config.JsonStringOrigins | chatbot-backend/config.py:50 | For an array of strings, the JSON path returns the non-empty strings, stripped, in order. |
| Config.ParseCorsOrigins | chatbot-backend/config.py:38-67 | Empty input gives exactly the default origin, and an empty result only comes from a bracketed value that parses as a JSON list. |
| Config.UnbracketedOriginsAreClean | chatbot-backend/config.py:44-62 | A value that is not bracketed once cleaned yields a non-empty list of non-empty, comma-free origins. |
| Config.EmptyJsonArrayGivesNoOrigins | chatbot-backend/config.py:46-50 | `"[]"` yields an empty origin list. |
| Config.JsonBlankStringGivesEmptyOrigin | chatbot-backend/config.py:50 | A JSON string `" "` passes the truthiness test before it is stripped, so it yields the origin "". |
| Config.MalformedJsonKeepsBrackets | chatbot-backend/config.py:46-56 | A bracketed value that is not valid JSON, or is not a list, is comma-split as it stands; the first origin starts with `[` and the last ends with `]`. |
| Config.CommaSplitKeepsBrackets | chatbot-backend/config.py:55-56 | Comma-splitting a bracketed string keeps `[` at the start of the first origin and `]` at the end of the last. |
| Config.SplitJoin | chatbot-backend/config.py:55 | Splitting a comma-joined list of comma-free pieces gives the pieces back. |
| Config.TrimAllKeepsClean | chatbot-backend/config.py:55 | Pieces without surrounding whitespace are unchanged by trimming. |
| Config.CommaOriginsOfJoin | chatbot-backend/config.py:55-62 | The comma path applied to clean origins joined with commas gives those origins back. |
| Config.CommaListRoundTrip | chatbot-backend/config.py:40-62 | Round trip: clean origins written comma-separated, not starting with a quote or `[` and not ending with a quote, parse back to themselves. |
| Config.DefaultOriginHasNoComma | chatbot-backend/config.py:41 | The default origin is non-empty and has no comma. |
| Text.Strip | chatbot-backend/config.py:44 | Python's str.strip with a character set; never longer than its argument. StripIsSlice, StripEnds, StripRemovesOnly, StripKeepsEnds and StripEmpty state its behaviour. |
| Text.TrimStartSpec | chatbot-backend/config.py:44 | Stripping the start gives a suffix that does not start with a stripped character, and removes only such characters. |
| Text.TrimEndSpec | chatbot-backend/config.py:44 | Stripping the end gives a prefix that does not end with a stripped character, and removes only such characters. |
| Text.StripIsSlice | chatbot-backend/config.py:44 | strip() returns a contiguous slice of its argument. |
| Text.StripEnds | chatbot-backend/security.py:110 | Neither end of a stripped string is a stripped character. |
| Text.StripRemovesOnly | chatbot-backend/config.py:44 | Everything strip() removes, at either end, is a stripped character. |
| Text.StripKeepsEnds | chatbot-backend/config.py:44 | A first or last character that is not stripped survives in place, and a string with both ends unstripped is unchanged. |
| Text.StripEmpty | chatbot-backend/config.py:55-56 | strip() gives "" iff every character is stripped. |
| Text.StripIsSubsequence | chatbot-backend/security.py:110 | strip() only deletes characters. |
| Text.FirstIndex | chatbot-backend/config.py:55 | The result is None iff the character is absent; otherwise it is the index of its first occurrence. |
| Text.Split | chatbot-backend/config.py:55 | split() gives at least one piece. |
| Text.SplitPiecesAvoidSeparator | chatbot-backend/config.py:55 | No piece of split() contains the separator. |
| Text.SplitFirstPiece | chatbot-backend/config.py:55 | The first piece is the prefix before the first separator. |
| Text.SplitLastPiece | chatbot-backend/config.py:55 | When the string does not end with the separator, the last piece is non-empty and ends as the string does. |
| Text.Join | chatbot-backend/config.py:55 | Python's str.join. JoinSingle, JoinSplit, JoinLength, JoinAppend and JoinEnds state its behaviour. |
| Text.JoinSingle | chatbot-backend/generator.py:79 | No pieces join to "" and a single piece joins to itself. |
| Text.JoinSplit | chatbot-backend/config.py:55 | Joining the pieces of split() with the separator gives the original string. |
| Text.JoinLength | chatbot-backend/generator.py:79 | A join is as long as its pieces plus one separator between each neighbouring pair. |
| Text.JoinAppend | chatbot-backend/generator.py:79 | Appending a piece appends a separator and that piece, so join keeps order. |
| Text.JoinEnds | chatbot-backend/generator.py:79 | A join starts as its first piece and ends as its last one. |
| Generator.FormatRetrievedDocuments | chatbot-backend/generator.py:77-79 | The context string. NoDocumentsGivePlaceholder, FormattedLength, SingleDocumentUnchanged, FormattingKeepsOrder and EmptyDocumentsAreNotPlaceholder state its behaviour. |
| Generator.Contents | chatbot-backend/generator.py:79 | One text per document, in retrieval order. |
| Generator.NoDocumentsGivePlaceholder | chatbot-backend/generator.py:79 | None or an empty list gives exactly "No relevant information found.". |
| Generator.FormattedLength | chatbot-backend/generator.py:79 | For n >= 1 documents the length is the sum of their lengths plus 2(n-1). |
| Generator.SingleDocumentUnchanged | chatbot-backend/generator.py:79 | One document gives its text unchanged. |
| Generator.FormattingKeepsOrder | chatbot-backend/generator.py:79 | One more document appends a blank line and its text to the others' result. |
| Generator.EmptyDocumentsAreNotPlaceholder | chatbot-backend/generator.py:79 | Documents with empty texts never give the placeholder; one empty document gives "". |
| Generator.Variables | chatbot-backend/generator.py:45-57 | Every slot's variable is among the template's variables. |
| Generator.Render | chatbot-backend/generator.py:45-57 | A template with each slot replaced by its variable's value. RenderReadsOnlyItsVariables, RenderOneSlot, SystemMessage and HumanMessage state its behaviour. |
| Generator.RenderReadsOnlyItsVariables | chatbot-backend/generator.py:60-63 | A rendered template depends only on the values of its own variables. |
| Generator.TemplateVariables | chatbot-backend/generator.py:45-57 | The system template reads exactly `context` and the human template exactly `question`. |
| Generator.RenderOneSlot | chatbot-backend/generator.py:40 | A template with one slot between two literals renders as the value placed between them. |
| Generator.SystemMessage | chatbot-backend/generator.py:19-42 | The system message is the template's text with the formatted documents, placeholder included, in its single `{context}` slot. |
| Generator.HumanMessage | chatbot-backend/generator.py:52-57 | The human message is the question verbatim. |
| Api.Budget | chatbot-frontend/src/services/api.ts:15 | A call may make at least one attempt, and one more per retry. |
| Api.FetchWithRetry | chatbot-frontend/src/services/api.ts:12-55 | At most retries + 1 attempts are made; the result is the last attempt's outcome; every attempt before it failed; the call stops before the budget only on an OK response. |
| Api.FirstOkResponseReturned | chatbot-frontend/src/services/api.ts:27-47 | The first OK response within the budget is returned after exactly that many attempts. |
| Api.AllFailuresRetried | chatbot-frontend/src/services/api.ts:48-53 | When every attempt in the budget fails, all are made and the last failure is thrown. |
| Api.UnauthorizedIsRetried | chatbot-frontend/src/services/api.ts:33-51 | A server answering 401 every time is asked 4 times, and the call throws the unauthorised message. |
| Api.ErrorDetail | chatbot-frontend/src/services/api.ts:28-31 | The detail a failed response carries: the body's detail field, or the status text for a body that is not JSON. StatusMessages states its use. |
| Api.StatusMessage | chatbot-frontend/src/services/api.ts:33-44 | The message of the Error thrown for a failed response. StatusMessages states it for every status. |
| Api.Outcome | chatbot-frontend/src/services/api.ts:27-47 | One attempt: an OK response is returned, anything else is thrown. FetchWithRetry and StatusMessages state its use. |
| Api.StatusMessages | chatbot-frontend/src/services/api.ts:27-44 | 401, 413, 429 and 422 map to their fixed messages; other statuses give a truthy detail or the generic API error; a body that is not JSON uses the status text. |
| Api.RequestHeaders | chatbot-frontend/src/services/api.ts:18-24 | The headers are Content-Type, the API key header and the caller's headers; the caller's win on a clash, and the defaults apply otherwise. |
| Api.AskAt | chatbot-frontend/src/services/api.ts:57-95 | The shared body of generateResponse and chatResponse: the response field of the body, or a thrown value. CallsThrowOnlyErrors states what it throws and AskAtSuccess what it returns. |
| Api.GenerateResponse | chatbot-frontend/src/services/api.ts:57-75 | generateResponse only ever throws an Error. |
| Api.ChatResponse | chatbot-frontend/src/services/api.ts:77-95 | chatResponse only ever throws an Error. |
| Api.AskAtSuccess | chatbot-frontend/src/services/api.ts:57-95 | The calls return the response field of the first OK response's JSON body; an OK body that is not JSON throws its SyntaxError; success only comes from an OK JSON response. |
| Api.CallsThrowOnlyErrors | chatbot-frontend/src/services/api.ts:57-95 | generateResponse and chatResponse rethrow an Error unchanged, replace any other thrown value by the default message, and so only ever throw Errors. |
| Api.CheckHealth | chatbot-frontend/src/services/api.ts:97-109 | checkHealth. HealthMeansSomeAttemptOk states when it is true. |
| Api.HealthMeansSomeAttemptOk | chatbot-frontend/src/services/api.ts:97-109 | checkHealth is true iff one of the first four attempts gets an OK response; it never throws. |

## Left out

- Logging and timing in the middleware and elsewhere are not modelled. They have no effect on any result.
- Errors raised by the downstream handler after the middleware forwards a request are not modelled. Inside the try block they would become a 500 too. `Forward` stands for handing the request on.
- How the raised HTTPException reaches the client is not modelled. `Security.Status` is the status the middleware puts on the exception it raises; an exception raised inside a `BaseHTTPMiddleware` does not pass through the framework's HTTPException handler.
- `SecurityMiddleware`, `sanitize_input` and the parsed CORS_ORIGINS are not wired into the application in `chatbot-backend/main.py`. That file installs only the CORS middleware, with a hard-coded origin, and passes the question to the chain unsanitised. The model treats the three as standalone functions and does not model main.py.
- The access to `request.client.host` before the try block is not modelled. It raises when the client address is unknown.
- Header names are looked up case-insensitively by the framework. The model receives the looked-up values.
- Python's `int()` on the Content-Length header and `json.loads` on CORS_ORIGINS are oracles. Each JSON element is represented by its truth value and its `str()`.
- `Security.Sanitize`: the script-block substitution is not a step of the pipeline. `Security.NoScriptBlockSurvives` shows it can never match there.
- Loading settings through pydantic and `.env` is not modelled. Parsing MAX_REQUEST_SIZE and MAX_QUESTION_LENGTH from the environment is not modelled either; they are plain fields.
- The rate-limit strings are stored without validation and no limiter exists in the code, so nothing is modelled for them.
- The LangChain, Chroma and OpenAI setup, the chat model, the retriever and the output parser in the generator are not modelled. Neither is PDF ingestion.
- `Generator.Document` keeps only `page_content`. Metadata is not read by the formatter.
- The retry delay (`RETRY_DELAY` and `setTimeout`) is not modelled. Neither is the request body (`JSON.stringify`), nor `fetch` itself, which is the network oracle.
- `Api.FetchWithRetry`: `retries` is an integer. A fractional JavaScript number is not modelled.
- A JSON body of `null` makes the property read throw a TypeError. It is not modelled: a JSON body is an object.
- Headers passed as a `Headers` instance or as an array are not modelled. Only plain objects are.
- The React components, the backend's route wiring and the logger configuration are not modelled.
