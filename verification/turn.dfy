/** The decision both turn handlers (the HTTP message route and the
    websocket loop) make before writing anything: a detected, supported
    language switch first; otherwise a prompt for a language when none is
    known; otherwise a reply from the generator in the known language. */
module Turn {
  import opened Wrappers
  import opened Text
  import opened Config
  import Helpers

  /** What a turn handler answers for an unknown session id. */
  const SessionNotFound := "Session not found"

  /** What a turn handler answers when no generator is configured. */
  const AiNotAvailable := "AI service is not available"

  datatype TurnKind =
    | SwitchLanguage(language: string)
    | PromptForLanguage
    | AskAi(language: string)

  /** `detected if detected and detected in SUPPORTED_LANGUAGES`. */
  function RequestedSwitch(message: string, consts: AppConstants): (r: Option<string>)
    ensures r.Some? ==> r.value in consts.supportedLanguages
    ensures r.Some? ==> Helpers.DetectLanguagePreference(message, consts.unicodeWord) == r
    ensures r.None? ==>
      var d := Helpers.DetectLanguagePreference(message, consts.unicodeWord);
      d.None? || d.value !in consts.supportedLanguages
  {
    var detected := Helpers.DetectLanguagePreference(message, consts.unicodeWord);
    if detected.Some? && detected.value in consts.supportedLanguages then detected else None
  }

  /** Python's `a or b` on optional strings: `a` unless it is absent or empty. */
  function Or(a: Option<string>, b: Option<string>): (r: Option<string>)
    ensures a.Some? && a.value != "" ==> r == a
    ensures a.None? || a.value == "" ==> r == b
  {
    if a.Some? && a.value != "" then a else b
  }

  /** The turn's branch, given the language known for it. A requested
      switch wins over any known language; a prompt happens only when no
      language is known and none is requested. */
  function DecideTurn(message: string, known: Option<string>, consts: AppConstants): (r: TurnKind)
    ensures r.SwitchLanguage? <==> RequestedSwitch(message, consts).Some?
    ensures r.SwitchLanguage? ==> r.language == RequestedSwitch(message, consts).value
    ensures r.PromptForLanguage? <==> RequestedSwitch(message, consts).None? && known.None?
    ensures r.AskAi? ==> known == Some(r.language)
  {
    match RequestedSwitch(message, consts)
    case Some(l) => SwitchLanguage(l)
    case None => if known.None? then PromptForLanguage else AskAi(known.value)
  }

  /** `CONFIRMATION_MESSAGES.get(lang, f"Language changed to {lang.capitalize()}.")` */
  function Confirmation(language: string, consts: AppConstants): (r: string)
    ensures language in consts.confirmationMessages ==> r == consts.confirmationMessages[language]
    ensures language !in consts.confirmationMessages ==>
      r == "Language changed to " + Capitalize(language) + "."
  {
    if language in consts.confirmationMessages then consts.confirmationMessages[language]
    else "Language changed to " + Capitalize(language) + "."
  }
}
