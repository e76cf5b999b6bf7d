/** The configuration the core reads: the upload ceiling, the candidate
    generation models and the per-model retry ceiling, plus the
    application constants (supported languages, confirmation phrases, the
    language prompt), which are not part of this model and are taken as
    parameters. */
module Config {

  /** Maximum upload size in bytes (10 MB). */
  const MAX_FILE_SIZE: nat := 10 * 1024 * 1024

  /** Candidate generation models, tried in this order. */
  const AI_MODEL_NAMES: seq<string> := ["gemini-2.0-flash", "gemini-1.5-flash"]

  /** Sends per model before giving up on it. */
  const AI_MAX_RETRIES: nat := 3

  /** Application constants, given from outside the model. `unicodeWord`
      tells which non-ASCII characters the regular-expression engine counts
      as word characters. */
  datatype AppConstants = AppConstants(
    supportedLanguages: seq<string>,
    confirmationMessages: map<string, string>,
    languagePrompt: string,
    unicodeWord: char -> bool)
}
