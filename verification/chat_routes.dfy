/** The HTTP routes of the chat: sending a message, uploading a file for
    analysis, deleting a session and changing its language. A route returns
    the store after it ran, since writes made before a failure stay, together
    with its response or HTTP error and the generation when the generator was
    called. */
module ChatRoutes {
  import opened Wrappers
  import opened Text
  import opened Records
  import opened Config
  import opened AiService
  import opened FileProcessor
  import Turn

  /** The body of `POST /chat/message`; `language` overrides the stored
      language for this turn only. */
  datatype SendMessageRequest = SendMessageRequest(sessionId: string, message: string, language: Option<string>)

  /** The pair a completed turn returns. */
  datatype Exchange = Exchange(userMessage: ChatMessage, assistantMessage: ChatMessage)

  /** What a route did: the store afterwards, its response, and the
      generation if the generator was called. */
  datatype Handled<T> = Handled(store: Store, response: Result<T, HttpError>, generation: Option<Generation>)

  // ---------------------------------------------------------------------------
  // send_message

  /** `send_message`. The turn language is the request's language, or else
      the stored one; a requested switch still comes first. */
  function SendMessage(st: Store, req: SendMessageRequest, consts: AppConstants, aiAvailable: bool,
                       oracle: (string, nat) -> Outcome, now: int): (r: Handled<Exchange>)
    ensures req.sessionId !in st.sessions ==> r == Handled(st, Err(HttpError(404, Turn.SessionNotFound)), None)
  {
    if req.sessionId !in st.sessions then Handled(st, Err(HttpError(404, Turn.SessionNotFound)), None)
    else
      var lang := Turn.Or(req.language, st.sessions[req.sessionId].language);
      var turn := Turn.DecideTurn(req.message, lang, consts);
      var g := if turn.AskAi? && aiAvailable then
        Some(GenerateResponse(Ok(st.messages + [UserMessage(req.sessionId, req.message, now)]),
          req.sessionId, req.message, None, Some(turn.language), oracle))
      else None;
      AnswerMessage(st, req.sessionId, req.message, turn, consts, g, now)
  }

  /** The branches of `send_message` once the turn is decided; `g` is the
      generation when one took place. */
  function AnswerMessage(st: Store, sessionId: string, msg: string, turn: Turn.TurnKind, consts: AppConstants,
                         g: Option<Generation>, now: int): (r: Handled<Exchange>)
    ensures r.generation == (if turn.AskAi? then g else None)
    ensures r.response.Ok? ==>
      && r.response.value.userMessage == UserMessage(sessionId, msg, now)
      && r.store.messages == st.messages + [r.response.value.userMessage, r.response.value.assistantMessage]
    ensures r.response.Err? ==>
      && turn.AskAi?
      && r.store == st.(messages := st.messages + [UserMessage(sessionId, msg, now)])
    ensures turn.AskAi? && g.Some? ==>
      && (r.response.Ok? <==> g.value.result.Ok?)
      && (g.value.result.Ok? ==> r.response.Ok? && r.response.value.assistantMessage == AssistantMessage(sessionId, g.value.result.value, now))
      && (g.value.result.Err? ==> r.response == Err(g.value.result.error))
  {
    var u := UserMessage(sessionId, msg, now);
    match turn
    case SwitchLanguage(l) =>
      var a := AssistantMessage(sessionId, Turn.Confirmation(l, consts), now);
      Handled(Insert(Insert(SetLanguage(st, sessionId, l, now), u), a), Ok(Exchange(u, a)), None)
    case PromptForLanguage =>
      var a := AssistantMessage(sessionId, consts.languagePrompt, now);
      Handled(Insert(Insert(st, u), a), Ok(Exchange(u, a)), None)
    case AskAi(_) =>
      var st1 := Insert(st, u);
      match g
      case None => Handled(st1, Err(HttpError(503, Turn.AiNotAvailable)), None)
      case Some(gen) =>
        match gen.result
        case Err(e) => Handled(st1, Err(e), g)
        case Ok(reply) =>
          var a := AssistantMessage(sessionId, reply, now);
          Handled(Insert(st1, a), Ok(Exchange(u, a)), g)
  }

  /** Every branch keeps the stored languages supported and every stored
      message attached to a stored session, provided a requested switch
      names a supported language; the sessions change only on a switch. */
  lemma AnswerKeepsInvariants(st: Store, sessionId: string, msg: string, turn: Turn.TurnKind, consts: AppConstants,
                              g: Option<Generation>, now: int)
    requires sessionId in st.sessions
    requires turn.SwitchLanguage? ==> turn.language in consts.supportedLanguages
    requires LanguagesSupported(st, consts.supportedLanguages)
    requires NoOrphanMessages(st)
    ensures var r := AnswerMessage(st, sessionId, msg, turn, consts, g, now);
      && LanguagesSupported(r.store, consts.supportedLanguages)
      && NoOrphanMessages(r.store)
      && (r.store.sessions == st.sessions || turn.SwitchLanguage?)
  {
    var r := AnswerMessage(st, sessionId, msg, turn, consts, g, now);
    AppendKeepsAttached(st, r.store, sessionId);
  }

  /** Appending messages of a stored session to a store whose messages are
      all attached, without losing a session, keeps them all attached. */
  lemma AppendKeepsAttached(st: Store, st2: Store, sessionId: string)
    requires NoOrphanMessages(st) && sessionId in st.sessions
    requires st.sessions.Keys <= st2.sessions.Keys
    requires |st.messages| <= |st2.messages| && st2.messages[..|st.messages|] == st.messages
    requires forall k :: |st.messages| <= k < |st2.messages| ==> st2.messages[k].sessionId == sessionId
    ensures NoOrphanMessages(st2)
  {
    forall k | 0 <= k < |st2.messages| ensures st2.messages[k].sessionId in st2.sessions {
      if k < |st.messages| {
        assert st2.messages[k] == st2.messages[..|st.messages|][k];
      }
    }
  }

  // ---------------------------------------------------------------------------
  // upload_and_analyze_file

  /** An uploaded file as the route sees it: its name, declared type and
      size, and what each decoder the route may apply makes of its bytes
      (the PDF reader's pages, UTF-8 decoding, base64 encoding). */
  datatype UploadedFile = UploadedFile(
    filename: string,
    contentType: string,
    size: nat,
    asPdf: PdfReading,
    asUtf8: Option<string>,
    asBase64: string)

  /** The form's default `message`. */
  const DefaultUploadMessage := "Please analyze this medical report/image and provide insights."

  /** The 413 detail; 10 is `MAX_FILE_SIZE` in whole mebibytes. */
  const TooLargeDetail := "File too large. Maximum 10MB"

  const UnsupportedTypeDetail := "Unsupported file type. " + "Please upload PDF, image, or text files."
  const UndecodableDetail := "Cannot decode text file"
  const ReportHeading := "\n\nMedical Report Content:\n"
  const ImageRequest := "\n\nAnalyze this medical image for findings, abnormalities, or insights."
  const DocumentHeading := "\n\nMedical Document Content:\n"

  /** The stored user turn of an upload: the message with the file name
      appended, and the file's metadata. */
  function UploadMessage(sessionId: string, message: string, file: UploadedFile, now: int): ChatMessage {
    ChatMessage(sessionId, "user", message + " [Uploaded file: " + file.filename + "]",
      Some(FileInfo(file.filename, file.contentType, file.size)), now)
  }

  /** What goes to the generator: the text and, for an image, the image. */
  datatype Prepared = Prepared(text: string, image: Option<ImageContent>)

  /** The type dispatch of the upload route: exactly `application/pdf`, then
      an `image/` prefix, then a `text/` prefix, else unsupported. */
  function PrepareUpload(message: string, file: UploadedFile): (r: Result<Prepared, HttpError>)
    ensures r.Err? ==> r.error.status == 400
    ensures r.Ok? ==> StartsWith(r.value.text, message)
  {
    if file.contentType == "application/pdf" then
      match ExtractTextFromPdf(file.asPdf)
      case Err(e) => Err(e)
      case Ok(t) => Ok(Prepared(message + ReportHeading + t, None))
    else if StartsWith(file.contentType, "image/") then
      Ok(Prepared(message + ImageRequest, Some(ImageContent(file.asBase64, file.contentType))))
    else if StartsWith(file.contentType, "text/") then
      match file.asUtf8
      case None => Err(HttpError(400, UndecodableDetail))
      case Some(t) => Ok(Prepared(message + DocumentHeading + t, None))
    else
      Err(HttpError(400, UnsupportedTypeDetail))
  }

  /** The dispatch agrees with the category helper: an image is exactly what
      gets an image part, an unknown type is exactly what is refused as
      unsupported, and a PDF or text file fails exactly when it cannot be
      read. */
  lemma DispatchFollowsCategory(message: string, file: UploadedFile)
    ensures var c := GetFileTypeCategory(file.contentType);
      var r := PrepareUpload(message, file);
      && (c == Unknown <==> r == Err(HttpError(400, UnsupportedTypeDetail)))
      && (c == Image <==> r.Ok? && r.value.image.Some?)
      && (c == Image ==> r.value.image == Some(ImageContent(file.asBase64, file.contentType)))
      && (c == Pdf ==> (r.Ok? <==> ExtractTextFromPdf(file.asPdf).Ok?))
      && (c == Pdf && r.Ok? ==> r.value.text == message + ReportHeading + ExtractTextFromPdf(file.asPdf).value)
      && (c == PlainText ==> (r.Ok? <==> file.asUtf8.Some?))
      && (c == PlainText && r.Ok? ==> r.value.text == message + DocumentHeading + file.asUtf8.value)
  {
    var c := GetFileTypeCategory(file.contentType);
    if c == Pdf {
      var e := ExtractTextFromPdf(file.asPdf);
      if e.Err? {
        var d := e.error.detail;
        var prefix := "Failed to extract text from PDF: ";
        assert d[..|prefix|] == prefix;
        assert d[0] == d[..|prefix|][0] == 'F';
        assert UnsupportedTypeDetail[0] == 'U';
      }
    }
  }

  /** The upload route after the session is found, with the language it
      resolved (absent when none could be found). */
  function UploadWith(st: Store, sessionId: string, message: string, lang: Option<string>, file: UploadedFile,
                      aiAvailable: bool, oracle: (string, nat) -> Outcome, now: int): (r: Handled<Exchange>)
    ensures file.size > MAX_FILE_SIZE ==> r == Handled(st, Err(HttpError(413, TooLargeDetail)), None)
  {
    var p := PrepareUpload(message, file);
    var g := if file.size <= MAX_FILE_SIZE && p.Ok? && aiAvailable then
      Some(GenerateResponse(Ok(st.messages + [UploadMessage(sessionId, message, file, now)]),
        sessionId, p.value.text, p.value.image, lang, oracle))
    else None;
    AnswerUpload(st, sessionId, message, file, p, aiAvailable, g, now)
  }

  /** The steps of the upload route after the session is found, given the
      dispatch result `p` and the generation `g` when one took place: the
      size check before any write, the user turn stored before the
      dispatch, then the dispatch error, the generator check and the
      generation. */
  function AnswerUpload(st: Store, sessionId: string, message: string, file: UploadedFile,
                        p: Result<Prepared, HttpError>, aiAvailable: bool, g: Option<Generation>, now: int)
    : (r: Handled<Exchange>)
    ensures file.size > MAX_FILE_SIZE ==> r == Handled(st, Err(HttpError(413, TooLargeDetail)), None)
    ensures r.store.sessions == st.sessions
    ensures file.size <= MAX_FILE_SIZE && r.response.Err? ==>
      r.store.messages == st.messages + [UploadMessage(sessionId, message, file, now)]
    ensures file.size <= MAX_FILE_SIZE && p.Err? ==> r.response == Err(p.error)
    ensures file.size <= MAX_FILE_SIZE && p.Ok? && !aiAvailable ==>
      r.response == Err(HttpError(503, Turn.AiNotAvailable))
    ensures r.response.Ok? ==>
      && r.response.value.userMessage == UploadMessage(sessionId, message, file, now)
      && r.store.messages == st.messages + [r.response.value.userMessage, r.response.value.assistantMessage]
    ensures r.generation.Some? <==> file.size <= MAX_FILE_SIZE && p.Ok? && aiAvailable && g.Some?
    ensures r.generation.Some? ==>
      && r.generation == g
      && (r.response.Ok? <==> g.value.result.Ok?)
      && (g.value.result.Ok? ==> r.response.Ok? && r.response.value.assistantMessage == AssistantMessage(sessionId, g.value.result.value, now))
      && (g.value.result.Err? ==> r.response == Err(g.value.result.error))
  {
    if !ValidateFileSize(file.size, MAX_FILE_SIZE) then Handled(st, Err(HttpError(413, TooLargeDetail)), None)
    else
      var u := UploadMessage(sessionId, message, file, now);
      var st1 := Insert(st, u);
      match p
      case Err(e) => Handled(st1, Err(e), None)
      case Ok(_) =>
        if !aiAvailable then Handled(st1, Err(HttpError(503, Turn.AiNotAvailable)), None)
        else
          match g
          case None => Handled(st1, Err(HttpError(503, Turn.AiNotAvailable)), None)
          case Some(gen) =>
            match gen.result
            case Err(e) => Handled(st1, Err(e), g)
            case Ok(reply) =>
              var a := AssistantMessage(sessionId, reply, now);
              Handled(Insert(st1, a), Ok(Exchange(u, a)), g)
  }

  /** The upload steps never touch the sessions and only append messages of
      the found session, so both store invariants survive. */
  lemma AnswerUploadKeepsInvariants(st: Store, sessionId: string, message: string, file: UploadedFile,
                                    p: Result<Prepared, HttpError>, aiAvailable: bool, g: Option<Generation>,
                                    now: int, supported: seq<string>)
    requires sessionId in st.sessions
    requires LanguagesSupported(st, supported) && NoOrphanMessages(st)
    ensures var r := AnswerUpload(st, sessionId, message, file, p, aiAvailable, g, now);
      LanguagesSupported(r.store, supported) && NoOrphanMessages(r.store)
  {
    var r := AnswerUpload(st, sessionId, message, file, p, aiAvailable, g, now);
    AppendKeepsAttached(st, r.store, sessionId);
  }

  /** Within the size limit the stored messages start with the old ones and
      the user turn, whatever happens afterwards. */
  lemma AnswerUploadStoresFirst(st: Store, sessionId: string, message: string, file: UploadedFile,
                                p: Result<Prepared, HttpError>, aiAvailable: bool, g: Option<Generation>, now: int)
    requires file.size <= MAX_FILE_SIZE
    ensures var r := AnswerUpload(st, sessionId, message, file, p, aiAvailable, g, now);
      var u := UploadMessage(sessionId, message, file, now);
      && |r.store.messages| > |st.messages|
      && r.store.messages[..|st.messages| + 1] == st.messages + [u]
  {
    var r := AnswerUpload(st, sessionId, message, file, p, aiAvailable, g, now);
    var u := UploadMessage(sessionId, message, file, now);
    if r.response.Ok? {
      assert (st.messages + [u, r.response.value.assistantMessage])[..|st.messages| + 1] == st.messages + [u];
    } else {
      assert (st.messages + [u])[..|st.messages| + 1] == st.messages + [u];
    }
  }

  /** The size check is the only gate before the first write, and it is
      inclusive: an upload stores something exactly when its size is at most
      the limit, and a refused upload leaves the store as it was. */
  lemma AnswerUploadSizeGate(st: Store, sessionId: string, message: string, file: UploadedFile,
                             p: Result<Prepared, HttpError>, aiAvailable: bool, g: Option<Generation>, now: int)
    ensures var r := AnswerUpload(st, sessionId, message, file, p, aiAvailable, g, now);
      |r.store.messages| > |st.messages| <==> ValidateFileSize(file.size, MAX_FILE_SIZE)
    ensures var r := AnswerUpload(st, sessionId, message, file, p, aiAvailable, g, now);
      !ValidateFileSize(file.size, MAX_FILE_SIZE) ==> r.store == st
  {
    if ValidateFileSize(file.size, MAX_FILE_SIZE) {
      AnswerUploadStoresFirst(st, sessionId, message, file, p, aiAvailable, g, now);
    }
  }

  /** With a file within the limit, a readable type and a generator, the
      generator sees the stored user turn in the history and the prepared
      text and image as the content, and its reply or error is the route's. */
  lemma UploadAsksGenerator(st: Store, sessionId: string, message: string, lang: Option<string>, file: UploadedFile,
                            oracle: (string, nat) -> Outcome, now: int)
    requires file.size <= MAX_FILE_SIZE
    requires PrepareUpload(message, file).Ok?
    ensures var r := UploadWith(st, sessionId, message, lang, file, true, oracle, now);
      var p := PrepareUpload(message, file).value;
      && r.generation == Some(GenerateResponse(Ok(st.messages + [UploadMessage(sessionId, message, file, now)]),
                                               sessionId, p.text, p.image, lang, oracle))
      && (r.response.Ok? ==> r.response.value.assistantMessage.content == r.generation.value.result.value)
      && (r.response.Err? ==> r.response == Err(r.generation.value.result.error))
  {
  }

  /** The language `upload_and_analyze_file` resolves as written:
      `language or session.get("language", "english")`. A stored session
      always carries the `language` key, unset or not, so the default is
      never used. */
  function UploadLanguageAsWritten(language: Option<string>, stored: Option<string>): Option<string> {
    Turn.Or(language, stored)
  }

  /** The language the upload route evidently means to resolve: the form
      value, else the stored value, else English. */
  function UploadLanguage(language: Option<string>, stored: Option<string>): (r: string)
    ensures r != ""
    ensures language.Some? && language.value != "" ==> r == language.value
    ensures (language.None? || language.value == "") && stored.Some? && stored.value != "" ==> r == stored.value
    ensures (language.None? || language.value == "") && (stored.None? || stored.value == "") ==> r == "english"
  {
    Turn.Or(Turn.Or(language, stored), Some("english")).value
  }

  /** `upload_and_analyze_file` as written. */
  function UploadAndAnalyzeFileAsWritten(st: Store, sessionId: string, message: Option<string>, language: Option<string>,
                                         file: UploadedFile, aiAvailable: bool, oracle: (string, nat) -> Outcome,
                                         now: int): (r: Handled<Exchange>)
    ensures sessionId !in st.sessions ==> r == Handled(st, Err(HttpError(404, Turn.SessionNotFound)), None)
  {
    if sessionId !in st.sessions then Handled(st, Err(HttpError(404, Turn.SessionNotFound)), None)
    else
      UploadWith(st, sessionId, message.GetOr(DefaultUploadMessage),
        UploadLanguageAsWritten(language, st.sessions[sessionId].language), file, aiAvailable, oracle, now)
  }

  /** `upload_and_analyze_file` with English as the fallback language it
      evidently intends. */
  function UploadAndAnalyzeFile(st: Store, sessionId: string, message: Option<string>, language: Option<string>,
                                file: UploadedFile, aiAvailable: bool, oracle: (string, nat) -> Outcome,
                                now: int): (r: Handled<Exchange>)
    ensures sessionId !in st.sessions ==> r == Handled(st, Err(HttpError(404, Turn.SessionNotFound)), None)
  {
    if sessionId !in st.sessions then Handled(st, Err(HttpError(404, Turn.SessionNotFound)), None)
    else
      UploadWith(st, sessionId, message.GetOr(DefaultUploadMessage),
        Some(UploadLanguage(language, st.sessions[sessionId].language)), file, aiAvailable, oracle, now)
  }

  // ---------------------------------------------------------------------------
  // delete_chat_session

  const ChatSessionNotFound := "Chat session not found"

  /** `delete_many({"session_id": id})`: the messages of other sessions, in
      order. */
  function WithoutSession(msgs: seq<ChatMessage>, sessionId: string): (r: seq<ChatMessage>)
    ensures |r| <= |msgs|
    ensures forall k :: 0 <= k < |r| ==> r[k].sessionId != sessionId && r[k] in msgs
    ensures forall m :: m in msgs && m.sessionId != sessionId ==> m in r
  {
    if msgs == [] then []
    else
      var rest := WithoutSession(msgs[..|msgs| - 1], sessionId);
      var last := msgs[|msgs| - 1];
      assert msgs == msgs[..|msgs| - 1] + [last];
      if last.sessionId != sessionId then rest + [last] else rest
  }

  /** After the deletion the session has no messages left. */
  lemma NothingLeftOf(msgs: seq<ChatMessage>, sessionId: string)
    ensures MessagesOf(WithoutSession(msgs, sessionId), sessionId) == []
  {
  }

  /** Deleting one session's messages leaves every other session's messages
      as they were, in order. */
  lemma {:induction false} WithoutSessionKeepsOthers(msgs: seq<ChatMessage>, sessionId: string, other: string)
    requires other != sessionId
    ensures MessagesOf(WithoutSession(msgs, sessionId), other) == MessagesOf(msgs, other)
  {
    if msgs != [] {
      var init := msgs[..|msgs| - 1];
      var last := msgs[|msgs| - 1];
      var rest := WithoutSession(init, sessionId);
      WithoutSessionKeepsOthers(init, sessionId, other);
      if last.sessionId != sessionId {
        assert (rest + [last])[..|rest + [last]| - 1] == rest;
      }
    }
  }

  /** `delete_chat_session`: the session's messages are deleted first, then
      the session; a missing session is a 404, and its messages are gone by
      then all the same. */
  function DeleteChatSession(st: Store, sessionId: string): (r: Handled<string>)
    ensures r.store.sessions == st.sessions - {sessionId}
    ensures MessagesOf(r.store.messages, sessionId) == []
    ensures r.response.Err? <==> sessionId !in st.sessions
    ensures r.response.Err? ==> r.response.error == HttpError(404, ChatSessionNotFound)
    ensures r.generation.None?
  {
    var st1 := st.(messages := WithoutSession(st.messages, sessionId));
    assert sessionId !in st.sessions ==> st.sessions - {sessionId} == st.sessions;
    NothingLeftOf(st.messages, sessionId);
    if sessionId in st.sessions then
      Handled(st1.(sessions := st.sessions - {sessionId}), Ok("Chat session deleted successfully"), None)
    else
      Handled(st1, Err(HttpError(404, ChatSessionNotFound)), None)
  }

  /** Deletion keeps every message attached to a stored session and every
      stored language supported, and touches no other session's messages. */
  lemma DeleteKeepsInvariants(st: Store, sessionId: string, supported: seq<string>, other: string)
    requires NoOrphanMessages(st) && LanguagesSupported(st, supported)
    requires other != sessionId
    ensures var r := DeleteChatSession(st, sessionId);
      && NoOrphanMessages(r.store) && LanguagesSupported(r.store, supported)
      && MessagesOf(r.store.messages, other) == MessagesOf(st.messages, other)
  {
    WithoutSessionKeepsOthers(st.messages, sessionId, other);
    var r := DeleteChatSession(st, sessionId);
    forall k | 0 <= k < |r.store.messages| ensures r.store.messages[k].sessionId in r.store.sessions {
      var m := r.store.messages[k];
      assert m in st.messages;
      var j :| 0 <= j < |st.messages| && st.messages[j] == m;
    }
  }

  // ---------------------------------------------------------------------------
  // change_language

  /** The response of `change_language`. */
  datatype LanguageChanged = LanguageChanged(message: string, language: string)

  function UnsupportedLanguageDetail(supported: seq<string>): string {
    "Unsupported language. Supported: " + Join(supported, ", ")
  }

  /** `change_language`: the language is lower-cased and checked before the
      session is looked up; no message is stored. */
  function ChangeLanguage(st: Store, sessionId: string, language: string, consts: AppConstants, now: int)
    : (r: Handled<LanguageChanged>)
    ensures Lower(language) !in consts.supportedLanguages ==>
      r == Handled(st, Err(HttpError(400, UnsupportedLanguageDetail(consts.supportedLanguages))), None)
    ensures Lower(language) in consts.supportedLanguages && sessionId !in st.sessions ==>
      r == Handled(st, Err(HttpError(404, ChatSessionNotFound)), None)
    ensures r.response.Ok? <==> Lower(language) in consts.supportedLanguages && sessionId in st.sessions
    ensures r.response.Ok? ==>
      && r.response.value.language == Lower(language)
      && r.store.sessions == st.sessions[sessionId := st.sessions[sessionId].(language := Some(Lower(language)), updatedAt := now)]
    ensures r.store.messages == st.messages
  {
    var lower := Lower(language);
    if lower !in consts.supportedLanguages then
      Handled(st, Err(HttpError(400, UnsupportedLanguageDetail(consts.supportedLanguages))), None)
    else if sessionId !in st.sessions then
      Handled(st, Err(HttpError(404, ChatSessionNotFound)), None)
    else
      var reply := if lower in consts.confirmationMessages then consts.confirmationMessages[lower]
        else "Language changed to " + Capitalize(language) + ".";
      Handled(SetLanguage(st, sessionId, lower, now), Ok(LanguageChanged(reply, lower)), None)
  }

  /** The route confirms a change with the same text a turn handler uses
      for a requested switch to the lower-cased language. */
  lemma ChangeLanguageConfirmsLikeTurn(st: Store, sessionId: string, language: string, consts: AppConstants, now: int)
    requires ChangeLanguage(st, sessionId, language, consts, now).response.Ok?
    ensures ChangeLanguage(st, sessionId, language, consts, now).response.value.message
      == Turn.Confirmation(Lower(language), consts)
  {
    CapitalizeIgnoresCase(language);
  }

  /** Capitalising ignores the letter case of the input. */
  lemma CapitalizeIgnoresCase(s: string)
    ensures Capitalize(Lower(s)) == Capitalize(s)
  {
    if s != [] {
      var c := s[0];
      assert UpperChar(LowerChar(c)) == UpperChar(c);
      assert Lower(s)[1..] == Lower(s[1..]);
      LowerIdempotent(s[1..]);
    }
  }

  /** Changing the language keeps every stored language supported. */
  lemma ChangeLanguageKeepsInvariants(st: Store, sessionId: string, language: string, consts: AppConstants, now: int)
    requires LanguagesSupported(st, consts.supportedLanguages) && NoOrphanMessages(st)
    ensures var r := ChangeLanguage(st, sessionId, language, consts, now);
      LanguagesSupported(r.store, consts.supportedLanguages) && NoOrphanMessages(r.store)
  {
  }
}

/** What `send_message` and `upload_and_analyze_file` do, branch by branch,
    and the language the upload route resolves. */
module ChatRoutesFacts {
  import opened Wrappers
  import opened Records
  import opened Config
  import opened AiService
  import opened ChatRoutes
  import Text
  import Turn

  /** A detected, supported language request wins over everything, the
      request's own language included: the language is stored, the user
      text and the confirmation are stored, and the generator is not
      called. */
  lemma SendSwitchWins(st: Store, req: SendMessageRequest, consts: AppConstants, aiAvailable: bool,
                       oracle: (string, nat) -> Outcome, now: int, l: string)
    requires req.sessionId in st.sessions
    requires Turn.RequestedSwitch(req.message, consts) == Some(l)
    ensures var r := SendMessage(st, req, consts, aiAvailable, oracle, now);
      var u := UserMessage(req.sessionId, req.message, now);
      var a := AssistantMessage(req.sessionId, Turn.Confirmation(l, consts), now);
      && r.response == Ok(Exchange(u, a))
      && r.store.messages == st.messages + [u, a]
      && r.store.sessions == st.sessions[req.sessionId := st.sessions[req.sessionId].(language := Some(l), updatedAt := now)]
      && r.generation.None?
  {
  }

  /** With no language requested in either way and none stored, the user
      text and the language prompt are stored, and nothing else changes. */
  lemma SendPromptsForLanguage(st: Store, req: SendMessageRequest, consts: AppConstants, aiAvailable: bool,
                               oracle: (string, nat) -> Outcome, now: int)
    requires req.sessionId in st.sessions
    requires Turn.RequestedSwitch(req.message, consts).None?
    requires Turn.Or(req.language, st.sessions[req.sessionId].language).None?
    ensures var r := SendMessage(st, req, consts, aiAvailable, oracle, now);
      var u := UserMessage(req.sessionId, req.message, now);
      var a := AssistantMessage(req.sessionId, consts.languagePrompt, now);
      r == Handled(st.(messages := st.messages + [u, a]), Ok(Exchange(u, a)), None)
  {
  }

  /** Without a generator the user text is stored anyway and the route
      answers 503. */
  lemma SendWithoutGenerator(st: Store, req: SendMessageRequest, consts: AppConstants,
                             oracle: (string, nat) -> Outcome, now: int)
    requires req.sessionId in st.sessions
    requires Turn.RequestedSwitch(req.message, consts).None?
    requires Turn.Or(req.language, st.sessions[req.sessionId].language).Some?
    ensures SendMessage(st, req, consts, false, oracle, now)
      == Handled(st.(messages := st.messages + [UserMessage(req.sessionId, req.message, now)]),
                 Err(HttpError(503, Turn.AiNotAvailable)), None)
  {
  }

  /** On the generator path the generator gets the turn language, the
      request's own taking precedence, and a history that already holds the
      user text. Its reply is stored after the user text; its failure, a
      503, leaves the user text without a reply. The sessions are not
      touched: the request's language is never stored. */
  lemma SendAsksGenerator(st: Store, req: SendMessageRequest, consts: AppConstants,
                          oracle: (string, nat) -> Outcome, now: int, l: string)
    requires req.sessionId in st.sessions
    requires Turn.RequestedSwitch(req.message, consts).None?
    requires Turn.Or(req.language, st.sessions[req.sessionId].language) == Some(l)
    ensures var r := SendMessage(st, req, consts, true, oracle, now);
      var u := UserMessage(req.sessionId, req.message, now);
      && r.generation == Some(GenerateResponse(Ok(st.messages + [u]), req.sessionId, req.message, None, Some(l), oracle))
      && r.store.sessions == st.sessions
      && (r.response.Ok? ==>
            && r.response.value.assistantMessage == AssistantMessage(req.sessionId, r.generation.value.result.value, now)
            && r.store.messages == st.messages + [u, r.response.value.assistantMessage])
      && (r.response.Err? ==>
            && r.response == Err(r.generation.value.result.error)
            && r.response.error.status == 503
            && r.store.messages == st.messages + [u])
  {
    var u := UserMessage(req.sessionId, req.message, now);
    var turn := Turn.DecideTurn(req.message, Some(l), consts);
    assert turn == Turn.AskAi(l);
    var gen := GenerateResponse(Ok(st.messages + [u]), req.sessionId, req.message, None, Some(l), oracle);
    assert SendMessage(st, req, consts, true, oracle, now)
        == AnswerMessage(st, req.sessionId, req.message, turn, consts, Some(gen), now);
  }

  /** The user text is stored before the generator runs, so when the session
      holds fewer than `HistoryLimit` earlier messages, none later than now,
      the text is both the newest history turn and the content. */
  lemma SendUserTextIsNewestTurn(st: Store, req: SendMessageRequest, consts: AppConstants,
                                 oracle: (string, nat) -> Outcome, now: int, l: string)
    requires req.sessionId in st.sessions
    requires Turn.RequestedSwitch(req.message, consts).None?
    requires Turn.Or(req.language, st.sessions[req.sessionId].language) == Some(l)
    requires |MessagesOf(st.messages, req.sessionId)| < HistoryLimit
    requires forall x :: x in st.messages ==> x.timestamp <= now
    ensures var r := SendMessage(st, req, consts, true, oracle, now);
      && r.generation.Some?
      && var g := r.generation.value;
      && |g.history| > 0 && g.history[|g.history| - 1] == HistoryTurn(UserRole, [req.message])
      && g.content[0] == TextPart(req.message)
  {
    var u := UserMessage(req.sessionId, req.message, now);
    SendAsksGenerator(st, req, consts, oracle, now, l);
    NewestIsLastTurn(st.messages, u);
  }

  /** `send_message` keeps the stored languages supported and every stored
      message attached to a stored session, and changes the sessions only
      for a requested switch. */
  lemma SendKeepsInvariants(st: Store, req: SendMessageRequest, consts: AppConstants, aiAvailable: bool,
                            oracle: (string, nat) -> Outcome, now: int)
    requires LanguagesSupported(st, consts.supportedLanguages) && NoOrphanMessages(st)
    ensures var r := SendMessage(st, req, consts, aiAvailable, oracle, now);
      && LanguagesSupported(r.store, consts.supportedLanguages)
      && NoOrphanMessages(r.store)
      && (r.store.sessions == st.sessions || Turn.RequestedSwitch(req.message, consts).Some?)
  {
    if req.sessionId in st.sessions {
      var lang := Turn.Or(req.language, st.sessions[req.sessionId].language);
      var turn := Turn.DecideTurn(req.message, lang, consts);
      var g := if turn.AskAi? then
        Some(GenerateResponse(Ok(st.messages + [UserMessage(req.sessionId, req.message, now)]),
          req.sessionId, req.message, None, Some(turn.language), oracle))
      else None;
      AnswerKeepsInvariants(st, req.sessionId, req.message, turn, consts, if aiAvailable then g else None, now);
    }
  }

  /** An upload above the size limit is refused with 413 before anything is
      stored. */
  lemma UploadTooLarge(st: Store, sessionId: string, message: Option<string>, language: Option<string>,
                       file: UploadedFile, aiAvailable: bool, oracle: (string, nat) -> Outcome, now: int)
    requires sessionId in st.sessions
    requires file.size > MAX_FILE_SIZE
    ensures UploadAndAnalyzeFile(st, sessionId, message, language, file, aiAvailable, oracle, now)
      == Handled(st, Err(HttpError(413, TooLargeDetail)), None)
  {
  }

  /** An upload within the limit stores the user turn, with the file's
      metadata, before the type is even looked at. */
  lemma UploadStoresUserTurnFirst(st: Store, sessionId: string, message: Option<string>, language: Option<string>,
                                  file: UploadedFile, aiAvailable: bool, oracle: (string, nat) -> Outcome, now: int)
    requires sessionId in st.sessions
    requires file.size <= MAX_FILE_SIZE
    ensures var r := UploadAndAnalyzeFile(st, sessionId, message, language, file, aiAvailable, oracle, now);
      var u := UploadMessage(sessionId, message.GetOr(DefaultUploadMessage), file, now);
      && |r.store.messages| > |st.messages|
      && r.store.messages[..|st.messages| + 1] == st.messages + [u]
      && u.fileInfo == Some(FileInfo(file.filename, file.contentType, file.size))
  {
    var msg := message.GetOr(DefaultUploadMessage);
    var lang := Some(UploadLanguage(language, st.sessions[sessionId].language));
    var p := PrepareUpload(msg, file);
    var g := if p.Ok? && aiAvailable then
      Some(GenerateResponse(Ok(st.messages + [UploadMessage(sessionId, msg, file, now)]),
        sessionId, p.value.text, p.value.image, lang, oracle))
    else None;
    AnswerUploadStoresFirst(st, sessionId, msg, file, p, aiAvailable, g, now);
  }

  /** A refused type leaves the user turn stored without a reply, and the
      refusal is the route's answer. */
  lemma UploadRefusedTypeKeepsUserTurn(st: Store, sessionId: string, message: Option<string>, language: Option<string>,
                                       file: UploadedFile, aiAvailable: bool, oracle: (string, nat) -> Outcome, now: int)
    requires sessionId in st.sessions
    requires file.size <= MAX_FILE_SIZE
    requires PrepareUpload(message.GetOr(DefaultUploadMessage), file).Err?
    ensures var r := UploadAndAnalyzeFile(st, sessionId, message, language, file, aiAvailable, oracle, now);
      var text := message.GetOr(DefaultUploadMessage);
      r == Handled(st.(messages := st.messages + [UploadMessage(sessionId, text, file, now)]),
                   Err(PrepareUpload(text, file).error), None)
  {
  }

  /** Finding, as written: with no language in the form and none stored, the
      upload route hands the generator no language at all. The generation
      fails with a 500 and the user turn stays stored without a reply. */
  lemma UploadWithoutLanguageFails(st: Store, sessionId: string, message: Option<string>, file: UploadedFile,
                                   oracle: (string, nat) -> Outcome, now: int)
    requires sessionId in st.sessions && st.sessions[sessionId].language.None?
    requires file.size <= MAX_FILE_SIZE
    requires PrepareUpload(message.GetOr(DefaultUploadMessage), file).Ok?
    ensures var r := UploadAndAnalyzeFileAsWritten(st, sessionId, message, None, file, true, oracle, now);
      && r.response == Err(HttpError(500, "Internal server error: " + NoneUpperMessage))
      && r.store.messages == st.messages + [UploadMessage(sessionId, message.GetOr(DefaultUploadMessage), file, now)]
  {
  }

  /** Finding, corrected: the same upload is answered in English, and the
      only failure left is the generator's own 503. */
  lemma UploadWithoutLanguageUsesEnglish(st: Store, sessionId: string, message: Option<string>, file: UploadedFile,
                                         oracle: (string, nat) -> Outcome, now: int)
    requires sessionId in st.sessions && st.sessions[sessionId].language.None?
    requires file.size <= MAX_FILE_SIZE
    requires PrepareUpload(message.GetOr(DefaultUploadMessage), file).Ok?
    ensures var r := UploadAndAnalyzeFile(st, sessionId, message, None, file, true, oracle, now);
      && r.generation.Some?
      && Text.Contains(r.generation.value.instruction, Text.Upper("english"))
      && (r.response.Err? ==> r.response.error.status == 503)
  {
  }

  /** The correction changes nothing when a language is given or stored. */
  lemma UploadsAgreeWhenLanguageKnown(st: Store, sessionId: string, message: Option<string>, language: Option<string>,
                                      file: UploadedFile, aiAvailable: bool, oracle: (string, nat) -> Outcome, now: int)
    requires sessionId in st.sessions
    requires var l := Turn.Or(language, st.sessions[sessionId].language); l.Some? && l.value != ""
    ensures UploadAndAnalyzeFile(st, sessionId, message, language, file, aiAvailable, oracle, now)
      == UploadAndAnalyzeFileAsWritten(st, sessionId, message, language, file, aiAvailable, oracle, now)
  {
  }

  /** Uploads keep the stored languages supported and every stored message
      attached to a stored session. */
  lemma UploadKeepsInvariants(st: Store, sessionId: string, message: Option<string>, language: Option<string>,
                              file: UploadedFile, aiAvailable: bool, oracle: (string, nat) -> Outcome, now: int,
                              supported: seq<string>)
    requires LanguagesSupported(st, supported) && NoOrphanMessages(st)
    ensures var r := UploadAndAnalyzeFile(st, sessionId, message, language, file, aiAvailable, oracle, now);
      LanguagesSupported(r.store, supported) && NoOrphanMessages(r.store)
  {
    if sessionId in st.sessions {
      var msg := message.GetOr(DefaultUploadMessage);
      var lang := Some(UploadLanguage(language, st.sessions[sessionId].language));
      var p := PrepareUpload(msg, file);
      var g := if file.size <= MAX_FILE_SIZE && p.Ok? && aiAvailable then
        Some(GenerateResponse(Ok(st.messages + [UploadMessage(sessionId, msg, file, now)]),
          sessionId, p.value.text, p.value.image, lang, oracle))
      else None;
      AnswerUploadKeepsInvariants(st, sessionId, msg, file, p, aiAvailable, g, now, supported);
    }
  }
}
