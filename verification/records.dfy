/** The persisted entities of the chat backend (a chat session and a chat
    message) and the abstract document store the routes read and write:
    sessions keyed by id, and one append-ordered sequence of messages. */
module Records {
  import opened Wrappers

  /** A conversation. `language` is unset until the user picks one. */
  datatype ChatSession = ChatSession(
    id: string,
    userId: string,
    language: Option<string>,
    createdAt: int,
    updatedAt: int)

  /** Metadata of an uploaded file; the bytes themselves are never stored. */
  datatype FileInfo = FileInfo(filename: string, contentType: string, size: nat)

  /** One stored turn. `role` is a free string, "user" or "assistant" in
      practice; `timestamp` is an abstract clock reading. */
  datatype ChatMessage = ChatMessage(
    sessionId: string,
    role: string,
    content: string,
    fileInfo: Option<FileInfo>,
    timestamp: int)

  /** An image handed to the generation backend as an inline part. */
  datatype ImageContent = ImageContent(imageBase64: string, mimeType: string)

  /** An HTTP error response: status code and detail text. */
  datatype HttpError = HttpError(status: nat, detail: string)

  /** The document store: the session collection and the message collection,
      in insertion order. */
  datatype Store = Store(sessions: map<string, ChatSession>, messages: seq<ChatMessage>)

  function UserMessage(sessionId: string, content: string, now: int): ChatMessage {
    ChatMessage(sessionId, "user", content, None, now)
  }

  function AssistantMessage(sessionId: string, content: string, now: int): ChatMessage {
    ChatMessage(sessionId, "assistant", content, None, now)
  }

  /** `insert_one` into the message collection. */
  function Insert(st: Store, m: ChatMessage): Store {
    st.(messages := st.messages + [m])
  }

  /** `update_one({"id": sid}, {"$set": {"language": ..., "updated_at": now}})`:
      a no-op when no session has that id. */
  function SetLanguage(st: Store, sessionId: string, language: string, now: int): (r: Store)
    ensures r.messages == st.messages
    ensures r.sessions.Keys == st.sessions.Keys
    ensures sessionId in st.sessions ==>
      r.sessions[sessionId] == st.sessions[sessionId].(language := Some(language), updatedAt := now)
    ensures forall id :: id in st.sessions && id != sessionId ==> r.sessions[id] == st.sessions[id]
  {
    if sessionId in st.sessions then
      st.(sessions := st.sessions[sessionId := st.sessions[sessionId].(language := Some(language), updatedAt := now)])
    else st
  }

  /** The messages of one session, in insertion order. */
  function MessagesOf(msgs: seq<ChatMessage>, sessionId: string): (r: seq<ChatMessage>)
    ensures |r| <= |msgs|
    ensures forall k :: 0 <= k < |r| ==> r[k].sessionId == sessionId && r[k] in msgs
    ensures forall m :: m in msgs && m.sessionId == sessionId ==> m in r
  {
    if msgs == [] then []
    else
      var rest := MessagesOf(msgs[..|msgs| - 1], sessionId);
      var last := msgs[|msgs| - 1];
      assert msgs == msgs[..|msgs| - 1] + [last];
      if last.sessionId == sessionId then rest + [last] else rest
  }

  /** Every stored session language is one of the supported ones. */
  predicate LanguagesSupported(st: Store, supported: seq<string>) {
    forall id :: id in st.sessions && st.sessions[id].language.Some? ==>
      st.sessions[id].language.value in supported
  }

  /** Every stored message belongs to a stored session. */
  predicate NoOrphanMessages(st: Store) {
    forall k :: 0 <= k < |st.messages| ==> st.messages[k].sessionId in st.sessions
  }
}
