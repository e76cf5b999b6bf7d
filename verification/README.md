# MedIntel conversation pipeline in Dafny

MedIntel is a multilingual medical chat assistant. Its Python backend takes a
user turn over HTTP or a websocket. A turn is text, or a file upload: a PDF,
an image or a text file. The backend then does one of three things:

- it switches the conversation language when the user asks for one;
- it prompts for a language when none is known;
- otherwise it asks a generative model for a reply, trying a fallback model
  and backing off on rate limits, then stores the reply and broadcasts it to
  every websocket watching the conversation.

This project models that turn pipeline as pure functions over immutable data
and proves properties of it. It covers:

- the language-preference detector, `prepare_for_mongo` and
  `validate_file_type`;
- the upload helpers: the size check, the type category and the page join of
  PDF text extraction;
- the history loader and `generate_response` with its model loop;
- the websocket connection registry and one iteration of the websocket
  receive loop;
- the HTTP routes `send_message`, `upload_and_analyze_file`,
  `delete_chat_session` and `change_language`.

How the model is built:

- The document store is a `Store` value: a map of sessions and the sequence of
  messages in insertion order.
- Every route returns the store as it stands afterwards, because writes made
  before a failure are kept.
- The generative model is an oracle `(model name, attempt) -> Outcome`. Each
  outcome is a reply, a blocked prompt or an error.
- A `Generation` records everything `generate_response` did. That is the
  instruction, the history, the content, every send and every backoff sleep,
  and the result.
- Clocks and ids are parameters. `now` stands for the timestamp.

The modules follow the repository's files:

| module | models |
|---|---|
| `Wrappers`, `Text` | `Optional`, `Result`, and the `str` operations the code uses |
| `Records`, `Config` | the stored records and the configuration constants |
| `Helpers` | `backend/app/utils/helpers.py` |
| `FileProcessor` | `backend/app/utils/file_processor.py` |
| `AiService`, `AiServiceFacts` | `backend/app/services/ai_service.py` |
| `Turn` | the branch decision `send_message` and `handle_websocket` share |
| `Websocket`, `WebsocketFacts` | `backend/app/websocket.py` |
| `ChatRoutes`, `ChatRoutesFacts` | `backend/app/routes/chat.py` |

### Behaviour worth knowing

- **History window.** `_load_chat_history` sorts oldest first and keeps the
  first 100 messages, so the history holds a session's oldest 100 turns
  (`AiService.HistoryKeepsOldest`). Once a session has 100 messages, new
  turns no longer reach the model's history (`AiService.NewestInvisibleAtCap`).
- **Role mapping.** The role "user" stays user, and every other role becomes
  the model's role.
- **Blocked prompt.** The 400 raised for a blocked prompt is caught by the
  per-model handler, and the next model is tried. When every model blocks,
  the turn fails with 503, and its detail carries the 400 text
  (`AiServiceFacts.LoopBlockedFallsThrough`, `AiServiceFacts.BothBlockedIs503`).
- **Backoff.** With three attempts per model, a rate-limited model sleeps
  1 s and then 2 s, with no sleep after the last attempt
  (`AiServiceFacts.LoopRateLimitBackoff`).
- **Broadcast.** The HTTP routes store the turn and broadcast nothing; only
  the websocket loop broadcasts.
- **Ending a websocket loop.** A failed generation, or a failed send of a
  notice to the sending socket, raises out of the receive loop, and the
  handler disconnects that socket.

## Model

| member | source | states |
|---|---|---|
| Text.Strip | backend/app/services/ai_service.py:139 | the result is a slice of the input with only whitespace cut from each end, and it neither starts nor ends with whitespace |
| Text.StripEmptyIffAllSpace | backend/app/utils/file_processor.py:35 | a text strips to nothing exactly when every character is whitespace |
| Text.RStripChar | backend/app/utils/helpers.py:137 | `rstrip("*")` removes exactly the trailing run of `*` and nothing before it |
| Helpers.DetectLanguagePreference | backend/app/utils/helpers.py:31-122 | an empty message gives no language; otherwise a language is found exactly when some table entry matches the lower-cased message, and it is the first matching entry in table order |
| Helpers.FirstInTableOrderWins | backend/app/utils/helpers.py:113-122 | conversely, a matching entry with no matching entry before it is the detected language |
| Helpers.TableKeys | backend/app/utils/helpers.py:47-111 | the table holds the 17 supported language keys, in the order english, hindi, spanish, ..., japanese, with no key repeated |
| Helpers.BareNameIsFirstAlternative | backend/app/utils/helpers.py:47-111 | every entry's first pattern is a whole-word pattern whose first alternative is the language's own name |
| Helpers.BareNameSuffices | backend/app/utils/helpers.py:47-117 | a whole-word mention of a language name selects that language when no earlier entry matches |
| Helpers.DetectIgnoresCase | backend/app/utils/helpers.py:44 | two messages that agree after lower-casing get the same answer |
| Helpers.DetectOnLowered | backend/app/utils/helpers.py:44 | detecting on an already lower-cased message changes nothing |
| Helpers.EnglishMentionWins | backend/app/utils/helpers.py:48-50 | a whole-word "english" anywhere in the message selects English, whatever else the message names |
| Helpers.EnglishMatchIsBareWord | backend/app/utils/helpers.py:49 | the English pattern matches only where the bare word "english" stands as a whole word |
| Helpers.EnglishmanIsNotEnglish | backend/app/utils/helpers.py:49 | "Englishman" does not select English, because of the word boundaries |
| Helpers.EnglishBeforeHindi | backend/app/utils/helpers.py:47-54 | a message naming both Hindi and English selects English, which comes first in the table |
| Helpers.ValidateFileType | backend/app/utils/helpers.py:125-139 | a type is accepted exactly when it starts with some allowed entry stripped of its trailing `*` |
| Helpers.WildcardEntryIsPrefix | backend/app/utils/helpers.py:136-138 | an `image/*` entry admits exactly the types starting with `image/` |
| Helpers.AcceptedTypeKeepsSuffix | backend/app/utils/helpers.py:136-138 | every entry is a prefix test, so any type that is accepted stays accepted with anything, such as parameters, appended |
| Helpers.PrepareForMongo | backend/app/utils/helpers.py:12-28 | a non-dictionary comes back unchanged; a dictionary's entries become exactly PrepareEntries of its entries (keys in place, datetimes as ISO text, nested dictionaries prepared by this same function, other values kept), and no datetime is left in it or its nested dictionaries |
| Helpers.PrepareEntries | backend/app/utils/helpers.py:22-27 | every key is kept in place, a datetime becomes its ISO text, a nested dictionary becomes the prepared form of that dictionary, any other value is untouched, and no datetime is left in the entries |
| Helpers.PrepareFixesDateFree | backend/app/utils/helpers.py:12-28 | a document without datetimes in its dictionaries is returned as it is |
| Helpers.PrepareIdempotent | backend/app/utils/helpers.py:12-28 | preparing twice is preparing once |
| Helpers.ListEntriesUntouched | backend/app/utils/helpers.py:22-27 | lists are not looked into: every entry holding a list, datetimes inside it included, is kept exactly |
| FileProcessor.GetFileTypeCategory | backend/app/utils/file_processor.py:62-79 | image exactly for an `image/` prefix, pdf exactly for `application/pdf`, text exactly for a `text/` prefix, unknown exactly when none of these holds |
| FileProcessor.PdfWithSuffixIsUnknown | backend/app/utils/file_processor.py:72-79 | only the bare PDF type is a PDF: the PDF type followed by any non-empty text falls into no category |
| FileProcessor.KeptPages | backend/app/utils/file_processor.py:28-31 | every kept page text is non-empty and comes from a page, and every page with non-empty text is kept |
| FileProcessor.KeptPagesAppend | backend/app/utils/file_processor.py:28-31 | pages are kept one by one, in page order |
| FileProcessor.JoinedPagesHaveText | backend/app/utils/file_processor.py:33-35 | the newline-joined pages strip to something exactly when some kept page has a non-whitespace character |
| FileProcessor.ExtractTextFromPdf | backend/app/utils/file_processor.py:11-45 | the result is the newline-joined kept pages, exactly when the reader succeeds and some page has text; every failure is a 400 whose detail starts with "Failed to extract text from PDF: " |
| FileProcessor.ExtractedPagesRoundTrip | backend/app/utils/file_processor.py:28-33 | when no page contains a newline, splitting the extracted text on newlines gives back the kept pages |
| FileProcessor.NoTextIsRejected | backend/app/utils/file_processor.py:35-45 | a document with no page text is a 400 saying no text could be extracted |
| AiService.SystemInstruction | backend/app/services/ai_service.py:45-53 | the instruction names the language in upper case and carries the medical disclaimer |
| AiService.InsertByTime | backend/app/services/ai_service.py:68 | inserting into a time-sorted list keeps it sorted, adds one element, and is a permutation of the list plus the element |
| AiService.SortByTime | backend/app/services/ai_service.py:68 | the result is sorted by timestamp and is a permutation of the input |
| AiService.SelectHistory | backend/app/services/ai_service.py:66-68 | the selected records are the session's own, sorted by timestamp, and there are min(100, their number) of them |
| AiService.HistoryKeepsOldest | backend/app/services/ai_service.py:66-68 | the selection is a sub-bag of the session's messages, and no message left out is older than one kept |
| AiService.LoadChatHistory | backend/app/services/ai_service.py:55-75 | one turn per selected record, in order, at most 100, each holding the record's content as its only part, with the user role exactly for role "user" |
| AiService.NewestLastUnderCap | backend/app/services/ai_service.py:66-68 | under 100 messages, storing a message no older than the rest appends it to the selection |
| AiService.NewestInvisibleAtCap | backend/app/services/ai_service.py:66-68 | from 100 messages on, storing a message no older than the rest leaves the selection unchanged |
| AiService.NewestIsLastTurn | backend/app/services/ai_service.py:55-75 | under the cap, the newest stored message is the last history turn, with its content and role |
| AiService.TryModel | backend/app/services/ai_service.py:136-157 | consecutive attempts on one model, at most the retry ceiling; every attempt but the last is a rate limit with retries left, and the last decides the outcome (stripped reply, blocked, or error); each retry sleeps 2^attempt seconds |
| AiService.TryModels | backend/app/services/ai_service.py:107-162 | the sends visit the candidates in order, at most three per model, and each send is followed by a retry on the same model or by the next model's first attempt; the loop stops at the first reply, and otherwise ends on the last model with `last_error` set from its last outcome |
| AiService.Generate | backend/app/services/ai_service.py:101-169 | the first send is the primary model's first attempt, there are at most six sends, and the result is the stripped reply exactly when the last send got one, else a 503; the history is loaded, the instruction carries language and disclaimer, and the content is the user text plus, exactly when an image is given, a second part holding that image's MIME type and base64 data |
| AiService.GenerateResponse | backend/app/services/ai_service.py:77-178 | a store failure or a missing language is a 500 with no send; otherwise as `Generate`, the content's second part being the given image with its MIME type and data; a failure is never anything but 500 or 503 |
| AiServiceFacts.LoopFirstReplyStops | backend/app/services/ai_service.py:136-139 | a first reply from the primary model is the answer after one send and no sleep |
| AiServiceFacts.LoopBlockedFallsThrough | backend/app/services/ai_service.py:141-162 | a blocked prompt on the primary model is followed at once by the fallback model's first attempt |
| AiServiceFacts.LoopBothBlocked | backend/app/services/ai_service.py:141-162 | when both models block, the loop makes one send each, sleeps not at all and ends with the blocked error |
| AiServiceFacts.BothBlockedIs503 | backend/app/services/ai_service.py:164-169 | ... and the turn fails with 503 carrying the 400 text |
| AiServiceFacts.LoopRateLimitRetries | backend/app/services/ai_service.py:148-157 | a primary model rate-limited on every attempt is tried three times before the fallback's first attempt |
| AiServiceFacts.LoopRateLimitBackoff | backend/app/services/ai_service.py:150-155 | between those attempts the loop sleeps 1 s, then 2 s |
| Turn.DecideTurn | backend/app/routes/chat.py:86-158 | a requested switch wins; a prompt exactly when none is requested and no language is known; otherwise the generator in the known language |
| Websocket.Connect | backend/app/websocket.py:24-30 | the socket is appended to its session's list, which is created when missing; other sessions are untouched |
| Websocket.RemoveFirst | backend/app/websocket.py:36 | an absent element leaves the list as it is; a present one shortens it by one |
| Websocket.RemoveFirstOneCopy | backend/app/websocket.py:36 | removal takes away exactly one copy of the socket |
| Websocket.Disconnect | backend/app/websocket.py:32-39 | the socket is removed once from its session's list, an emptied list is dropped, and other sessions are untouched |
| Websocket.DisconnectUndoesConnect | backend/app/websocket.py:24-39 | disconnecting a socket that was just connected, and was not listed before, restores the registry |
| Websocket.Healthy | backend/app/websocket.py:44-49 | a connection is kept exactly when it is in the list and its send succeeds, and no more connections than the list has |
| Websocket.SendEachKeepsHealthy | backend/app/websocket.py:44-49 | the send loop over the snapshot delivers to, and leaves listed, exactly the healthy connections, in order |
| Websocket.Broadcast | backend/app/websocket.py:41-52 | delivered to exactly the healthy connections of the session, failing ones removed, an emptied list dropped, other sessions untouched |
| Websocket.RegistryKeepsNoEmptyLists | backend/app/websocket.py:24-52 | connect, disconnect and broadcast never leave a session listed with no sockets |
| Websocket.Notify | backend/app/websocket.py:69-72 | a text to the sending socket alone is delivered and the loop goes on exactly when the send succeeds; a failed send disconnects the socket and leaves the store as it was |
| Websocket.HandleWsMessage | backend/app/websocket.py:69-72 | an unknown session stores nothing and only sends "Session not found" to the sender; the loop goes on exactly when that send succeeds, and a failed send disconnects the socket |
| Websocket.TakeTurn | backend/app/websocket.py:130-165 | the generator's result is recorded for a generator turn; the loop ends exactly when a generation failed, or when, without a generator, the notice to the sender could not be sent |
| Websocket.TakeTurnReplies | backend/app/websocket.py:150-159 | a reply is stored after the user text and broadcast to the healthy sockets of the session |
| Websocket.TakeTurnKeepsInvariants | backend/app/websocket.py:77-165 | every branch keeps stored languages supported, messages attached to stored sessions, and no empty socket lists |
| WebsocketFacts.WsSwitchConfirms | backend/app/websocket.py:77-107 | a requested switch stores the language, the user text and the confirmation, and broadcasts the confirmation, without calling the generator |
| WebsocketFacts.WsPromptsForLanguage | backend/app/websocket.py:109-128 | without a language, the user text and the prompt are stored and the prompt is broadcast |
| WebsocketFacts.WsWithoutGenerator | backend/app/websocket.py:130-141 | without a generator the user text is stored and only the sender hears that the service is unavailable; if that send fails the socket is disconnected and its loop ends |
| WebsocketFacts.WsAsksGenerator | backend/app/websocket.py:143-159 | the generator gets the stored language and a store already holding the user text; its reply is stored and broadcast |
| WebsocketFacts.WsGenerationFails | backend/app/websocket.py:143-165 | a failed generation keeps only the user text, broadcasts nothing and disconnects the sender |
| WebsocketFacts.WsUserTextIsNewestTurn | backend/app/websocket.py:130-148 | under the history cap, the user text is the last history turn the generator sees and its content |
| WebsocketFacts.WsKeepsInvariants | backend/app/websocket.py:59-165 | one received text keeps both store invariants and the registry invariant |
| ChatRoutes.SendMessage | backend/app/routes/chat.py:79-81 | an unknown session is a 404 and nothing changes |
| ChatRoutes.AnswerMessage | backend/app/routes/chat.py:86-168 | a success returns and stores the user message then the assistant message; every failure is on the generator path with only the user text stored; a generation's reply or error becomes the route's |
| ChatRoutes.AnswerKeepsInvariants | backend/app/routes/chat.py:86-168 | every branch keeps stored languages supported and messages attached, and sessions change only on a switch |
| ChatRoutes.PrepareUpload | backend/app/routes/chat.py:222-255 | every refusal is a 400, and the prepared text starts with the user's message |
| ChatRoutes.DispatchFollowsCategory | backend/app/routes/chat.py:222-255 | the dispatch agrees with the type category: unsupported exactly for unknown types, an image part exactly for images, and a PDF or text file fails exactly when it cannot be read |
| ChatRoutes.UploadWith | backend/app/routes/chat.py:197-201 | an oversized file is a 413 before anything is stored |
| ChatRoutes.AnswerUpload | backend/app/routes/chat.py:197-279 | the size check comes before any write; sessions are untouched; every later failure keeps only the user turn; the dispatch error, the missing generator and the generation's result each become the response |
| ChatRoutes.AnswerUploadStoresFirst | backend/app/routes/chat.py:203-216 | within the limit, the stored messages continue with the user turn whatever happens afterwards |
| ChatRoutes.AnswerUploadSizeGate | backend/app/routes/chat.py:196-216 | the size check, inclusive of the limit (file_processor.py `validate_file_size`), is the only gate before the first write: an upload stores something exactly when the check accepts its size, and a refused upload leaves the store unchanged |
| ChatRoutes.AnswerUploadKeepsInvariants | backend/app/routes/chat.py:203-279 | the upload steps keep both store invariants |
| ChatRoutes.UploadAsksGenerator | backend/app/routes/chat.py:264-279 | the generator gets the prepared text and image and a store holding the user turn, and its reply or error is the route's |
| ChatRoutes.UploadLanguage | backend/app/routes/chat.py:191 | the form language, else the stored language, else English, and never empty |
| ChatRoutes.UploadAndAnalyzeFileAsWritten | backend/app/routes/chat.py:187-189 | an unknown session is a 404 and nothing changes |
| ChatRoutes.UploadAndAnalyzeFile | backend/app/routes/chat.py:187-189 | an unknown session is a 404 and nothing changes |
| ChatRoutes.WithoutSession | backend/app/routes/chat.py:295 | exactly the messages of other sessions are kept |
| ChatRoutes.WithoutSessionKeepsOthers | backend/app/routes/chat.py:295 | every other session's messages are kept, in order |
| ChatRoutes.DeleteChatSession | backend/app/routes/chat.py:288-309 | the session and its messages are gone; a 404 exactly when the session was missing, its messages deleted all the same |
| ChatRoutes.DeleteKeepsInvariants | backend/app/routes/chat.py:288-309 | deletion keeps both store invariants and every other session's messages |
| ChatRoutes.ChangeLanguage | backend/app/routes/chat.py:326-354 | an unsupported language is a 400 before the session is looked up; a missing session is a 404; otherwise the lower-cased language is stored and returned; no message is stored |
| ChatRoutes.ChangeLanguageConfirmsLikeTurn | backend/app/routes/chat.py:349-352 | the route's confirmation is the one a turn handler gives for the lower-cased language |
| ChatRoutes.CapitalizeIgnoresCase | backend/app/routes/chat.py:351 | capitalising ignores the letter case of the input |
| ChatRoutes.ChangeLanguageKeepsInvariants | backend/app/routes/chat.py:341-347 | changing the language keeps both store invariants |
| ChatRoutesFacts.SendSwitchWins | backend/app/routes/chat.py:86-116 | a requested switch stores the language, the user text and the confirmation, over any request language, without calling the generator |
| ChatRoutesFacts.SendPromptsForLanguage | backend/app/routes/chat.py:118-136 | with no language, the user text and the prompt are stored and returned, and nothing else changes |
| ChatRoutesFacts.SendWithoutGenerator | backend/app/routes/chat.py:138-151 | without a generator the user text is stored and the route answers 503 |
| ChatRoutesFacts.SendAsksGenerator | backend/app/routes/chat.py:138-168 | the generator gets the request's language over the stored one and a store holding the user text; its reply is stored, and its 503 leaves only the user text; sessions are untouched |
| ChatRoutesFacts.SendUserTextIsNewestTurn | backend/app/routes/chat.py:138-158 | under the history cap, the user text is the last history turn the generator sees and its content |
| ChatRoutesFacts.SendKeepsInvariants | backend/app/routes/chat.py:74-168 | `send_message` keeps both store invariants and changes sessions only for a requested switch |
| ChatRoutesFacts.UploadTooLarge | backend/app/routes/chat.py:197-201 | an oversized upload is a 413 and nothing is stored |
| ChatRoutesFacts.UploadStoresUserTurnFirst | backend/app/routes/chat.py:203-216 | within the limit the user turn, with the file's metadata, is stored first |
| ChatRoutesFacts.UploadRefusedTypeKeepsUserTurn | backend/app/routes/chat.py:218-255 | a refused or unreadable file leaves the user turn stored and the refusal as the answer |
| ChatRoutesFacts.UploadWithoutLanguageFails | backend/app/routes/chat.py:191 | as written: with no language given or stored, the upload ends in a 500 with the user turn stored |
| ChatRoutesFacts.UploadWithoutLanguageUsesEnglish | backend/app/routes/chat.py:191 | corrected: the same upload asks the generator in English, and only a 503 can fail it |
| ChatRoutesFacts.UploadsAgreeWhenLanguageKnown | backend/app/routes/chat.py:191 | the correction changes nothing when a language is given or stored |
| ChatRoutesFacts.UploadKeepsInvariants | backend/app/routes/chat.py:177-279 | uploads keep both store invariants |

## Left out

- The WhatsApp bridge (`whatsapp.py`, `whatsapp_service.py`), server start-up and database connection handling: outside the turn pipeline.
- The create, get and list routes (`create_chat_session`, `get_chat_session`, `get_chat_messages`, `get_user_sessions`): thin reads and writes of the store with no control flow of their own.
- Store failures: the catch-all 500 handlers of the routes and the websocket are not modelled, except for a failed history load inside `generate_response`. Each store write is assumed to succeed.
- Missing content type: an uploaded file always carries a content type here. A file part without one reaches `None.startswith` (backend/app/routes/chat.py:234) and the catch-all 500 (chat.py:283-285) after the user turn is stored; that path is not modelled.
- `format_file_size`: floating-point formatting.
- Concurrency: every await is taken as atomic, and turns of one session never interleave.
- Ids, uuids and ISO timestamps: replaced by the integer `now` and by `iso` as a parameter.
- The generative model: an oracle from (model name, attempt) to outcome. The backoff sleeps are recorded, not performed.
- PDF parsing, base64 encoding and UTF-8 decoding: given with each uploaded file as what they yield (`PdfReading`, `asBase64`, `asUtf8`).
- The application constants (supported languages, confirmation messages, language prompt): a parameter, `AppConstants`.
- Regular expressions and case mapping: `Text.Lower` and `Text.Upper` cover ASCII and the Latin-1 letters whose case partner is one Latin-1 character; others, such as `ÿ`, `µ` and `ß`, are left unchanged. Unicode word characters of `\w` are the parameter `unicodeWord`. The detector's patterns are written out as whole-word or anywhere alternatives, not as general regexes.
- Helpers.PrepareForMongo: the Python function mutates its argument in place; the model returns the new value.
- ChatRoutes.TooLargeDetail: the "10MB" in the 413 detail is written as a constant, not computed from `MAX_FILE_SIZE`.
- Websocket.HandleWsMessage: only one iteration of the receive loop is modelled, for a received text; the transport's own disconnect ends the loop outside the model.

## Findings

| source | as written | input that shows it | evidently intended | confidence | as-written member | corrected member |
|---|---|---|---|---|---|---|
| backend/app/routes/chat.py:191 | `language or session.get("language", "english")`; a stored session always has the `language` key, set to `None` until chosen, so the default never applies and `generate_response` gets `None`, whose `.upper()` fails with a 500 | an upload with no form language to a session whose language is unset | fall back to English | not executed | ChatRoutesFacts.UploadWithoutLanguageFails | ChatRoutesFacts.UploadWithoutLanguageUsesEnglish |
