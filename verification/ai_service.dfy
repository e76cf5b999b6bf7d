/** The reply generator: the system instruction, the conversation history
    handed to the model, and the control flow of `generate_response` (model
    fallback in configured order, per-model retries with exponential backoff
    on rate limits). The generation backend is an oracle that answers each
    send, identified by model and attempt number; sleeps are recorded as a
    list of delays in seconds. */
module AiService {
  import opened Wrappers
  import opened Text
  import opened Records
  import Config

  // ---------------------------------------------------------------------------
  // System instruction

  /** The sentence every reply must carry. */
  const Disclaimer := "⚠️ This is not medical advice. Please consult a real doctor for professional medical advice."

  const InstructionHead := "\nYou are Dr. MedIntel, a highly experienced and compassionate AI physician assistant.\nCRITICAL: You MUST respond in "
  const InstructionRules := " language only.\n- Use the appropriate script for the language.\n"
    + "- Translate medical terms where possible, provide English in parentheses if needed.\n"
    + "- Simplify complex medical terminology.\n"
    + "- Structure responses with: Summary, Key Findings, Recommendations, Disclaimers.\n"
    + "- Always include: \""
  const InstructionTail := "\"\n"

  /** `_get_system_instruction(language)`: it names the target language in
      upper case and demands the fixed disclaimer. */
  function SystemInstruction(language: string): (r: string)
    ensures Contains(r, Upper(language))
    ensures Contains(r, Disclaimer)
  {
    Interleave(InstructionHead, Upper(language), InstructionRules, Disclaimer, InstructionTail)
  }

  /** `a + x + b + y + c`, which contains both `x` and `y`. */
  function Interleave(a: string, x: string, b: string, y: string, c: string): (r: string)
    ensures Contains(r, x) && Contains(r, y)
  {
    ContainsMiddle(a, x, b + y + c);
    ContainsMiddle(a + x + b, y, c);
    assert a + x + (b + y + c) == a + x + b + y + c;
    a + x + b + y + c
  }

  // ---------------------------------------------------------------------------
  // History

  datatype HistoryRole = UserRole | ModelRole

  /** `{"role": ..., "parts": [content]}` */
  datatype HistoryTurn = HistoryTurn(role: HistoryRole, parts: seq<string>)

  /** `to_list(100)` */
  const HistoryLimit: nat := 100

  function Min(a: nat, b: nat): nat { if a <= b then a else b }

  predicate SortedByTime(s: seq<ChatMessage>) {
    forall i, j :: 0 <= i < j < |s| ==> s[i].timestamp <= s[j].timestamp
  }

  lemma SortedCons(h: ChatMessage, t: seq<ChatMessage>)
    requires SortedByTime(t)
    requires forall x :: x in t ==> h.timestamp <= x.timestamp
    ensures SortedByTime([h] + t)
  {
    var r := [h] + t;
    forall i, j | 0 <= i < j < |r| ensures r[i].timestamp <= r[j].timestamp {
      assert r[j] == t[j - 1];
      if i > 0 { assert r[i] == t[i - 1]; }
    }
  }

  /** Inserts `m` after every element whose timestamp is not later than its
      own, so equal timestamps keep insertion order. */
  function InsertByTime(m: ChatMessage, s: seq<ChatMessage>): (r: seq<ChatMessage>)
    requires SortedByTime(s)
    ensures |r| == |s| + 1
    ensures SortedByTime(r)
    ensures multiset(r) == multiset(s) + multiset{m}
  {
    if s == [] then [m]
    else if m.timestamp < s[0].timestamp then
      SortedCons(m, s);
      [m] + s
    else
      var t := s[1..];
      assert s == [s[0]] + t;
      assert SortedByTime(t);
      var rest := InsertByTime(m, t);
      forall x | x in rest ensures s[0].timestamp <= x.timestamp {
        assert x in multiset(rest);
        if x != m {
          assert x in multiset(t);
          assert x in t;
        }
      }
      SortedCons(s[0], rest);
      [s[0]] + rest
  }

  /** A stable sort by timestamp (`sort("timestamp", 1)`). */
  function SortByTime(s: seq<ChatMessage>): (r: seq<ChatMessage>)
    ensures |r| == |s|
    ensures SortedByTime(r)
    ensures multiset(r) == multiset(s)
  {
    if s == [] then []
    else
      assert s == s[..|s| - 1] + [s[|s| - 1]];
      InsertByTime(s[|s| - 1], SortByTime(s[..|s| - 1]))
  }

  /** Inserting a message no older than any other appends it. */
  lemma {:induction false} InsertNewest(m: ChatMessage, s: seq<ChatMessage>)
    requires SortedByTime(s)
    requires forall x :: x in s ==> x.timestamp <= m.timestamp
    ensures InsertByTime(m, s) == s + [m]
  {
    if s != [] {
      InsertNewest(m, s[1..]);
      assert s == [s[0]] + s[1..];
    }
  }

  /** The records `_load_chat_history` reads: the session's messages sorted
      oldest first, cut to the first `HistoryLimit`. */
  function SelectHistory(msgs: seq<ChatMessage>, sessionId: string): (kept: seq<ChatMessage>)
    ensures |kept| == Min(HistoryLimit, |MessagesOf(msgs, sessionId)|)
    ensures SortedByTime(kept)
    ensures forall x :: x in kept ==> x.sessionId == sessionId
  {
    var ms := MessagesOf(msgs, sessionId);
    var sorted := SortByTime(ms);
    var n := Min(HistoryLimit, |sorted|);
    forall x | x in sorted[..n] ensures x.sessionId == sessionId {
      assert x in multiset(sorted);
      assert x in ms;
    }
    assert SortedByTime(sorted[..n]);
    sorted[..n]
  }

  /** The history holds the session's OLDEST messages: it is a sub-bag of
      them, and nothing left out is older than anything kept. */
  lemma HistoryKeepsOldest(msgs: seq<ChatMessage>, sessionId: string)
    ensures multiset(SelectHistory(msgs, sessionId)) <= multiset(MessagesOf(msgs, sessionId))
    ensures forall y, x ::
      y in multiset(MessagesOf(msgs, sessionId)) - multiset(SelectHistory(msgs, sessionId))
      && x in SelectHistory(msgs, sessionId) ==>
      x.timestamp <= y.timestamp
  {
    var sorted := SortByTime(MessagesOf(msgs, sessionId));
    PrefixIsOldest(sorted, Min(HistoryLimit, |sorted|));
  }

  /** In a time-sorted sequence, the first `n` elements are no later than
      the remaining ones. */
  lemma PrefixIsOldest(sorted: seq<ChatMessage>, n: nat)
    requires SortedByTime(sorted) && n <= |sorted|
    ensures SortedByTime(sorted[..n])
    ensures multiset(sorted[..n]) <= multiset(sorted)
    ensures forall y, x :: y in multiset(sorted) - multiset(sorted[..n]) && x in sorted[..n] ==>
      x.timestamp <= y.timestamp
  {
    var kept := sorted[..n];
    var dropped := sorted[n..];
    assert sorted == kept + dropped;
    assert multiset(sorted) == multiset(kept) + multiset(dropped);
    forall y, x | y in multiset(sorted) - multiset(kept) && x in kept
      ensures x.timestamp <= y.timestamp
    {
      assert y in multiset(dropped);
      assert y in dropped;
      var j :| 0 <= j < |dropped| && dropped[j] == y;
      var i :| 0 <= i < n && kept[i] == x;
      assert sorted[n + j] == y && sorted[i] == x;
    }
  }

  /** Role mapping of one record: "user" stays user, every other role is
      the model's. */
  function ToHistoryTurn(m: ChatMessage): HistoryTurn {
    HistoryTurn(if m.role == "user" then UserRole else ModelRole, [m.content])
  }

  /** `_load_chat_history(session_id)`: the selected records in order, each
      as a one-part turn. */
  function LoadChatHistory(msgs: seq<ChatMessage>, sessionId: string): (r: seq<HistoryTurn>)
    ensures |r| <= HistoryLimit
    ensures var kept := SelectHistory(msgs, sessionId);
      && |r| == |kept|
      && forall k :: 0 <= k < |r| ==>
        && r[k].parts == [kept[k].content]
        && (r[k].role == UserRole <==> kept[k].role == "user")
  {
    Turns(SelectHistory(msgs, sessionId))
  }

  function Turns(kept: seq<ChatMessage>): (r: seq<HistoryTurn>)
    ensures |r| == |kept|
    ensures forall k :: 0 <= k < |r| ==> r[k] == ToHistoryTurn(kept[k])
  {
    if kept == [] then [] else [ToHistoryTurn(kept[0])] + Turns(kept[1..])
  }

  /** While the session holds fewer than `HistoryLimit` messages, a newly
      stored message no older than the rest comes last in the history. */
  lemma NewestLastUnderCap(msgs: seq<ChatMessage>, m: ChatMessage)
    requires |MessagesOf(msgs, m.sessionId)| < HistoryLimit
    requires forall x :: x in msgs ==> x.timestamp <= m.timestamp
    ensures SelectHistory(msgs + [m], m.sessionId) == SelectHistory(msgs, m.sessionId) + [m]
  {
    var sorted := SortByTime(MessagesOf(msgs, m.sessionId));
    NewestAppended(msgs, m, sorted);
    SelectUnderCap(msgs, m.sessionId, sorted);
    SelectUnderCap(msgs + [m], m.sessionId, sorted + [m]);
  }

  /** Once the session holds `HistoryLimit` messages, a newly stored message
      no older than the rest is not in the history at all. */
  lemma NewestInvisibleAtCap(msgs: seq<ChatMessage>, m: ChatMessage)
    requires |MessagesOf(msgs, m.sessionId)| >= HistoryLimit
    requires forall x :: x in msgs ==> x.timestamp <= m.timestamp
    ensures SelectHistory(msgs + [m], m.sessionId) == SelectHistory(msgs, m.sessionId)
  {
    var sorted := SortByTime(MessagesOf(msgs, m.sessionId));
    NewestAppended(msgs, m, sorted);
    SelectAtCap(msgs, m.sessionId, sorted);
    SelectAtCap(msgs + [m], m.sessionId, sorted + [m]);
    PrefixOfExtension(sorted, m, HistoryLimit);
  }

  /** Under the cap, the newest stored message is the last history turn. */
  lemma NewestIsLastTurn(msgs: seq<ChatMessage>, m: ChatMessage)
    requires |MessagesOf(msgs, m.sessionId)| < HistoryLimit
    requires forall x :: x in msgs ==> x.timestamp <= m.timestamp
    ensures var h := LoadChatHistory(msgs + [m], m.sessionId);
      && |h| > 0 && h[|h| - 1].parts == [m.content]
      && (h[|h| - 1].role == UserRole <==> m.role == "user")
  {
    NewestLastUnderCap(msgs, m);
  }

  lemma PrefixOfExtension<T>(a: seq<T>, x: T, n: nat)
    requires n <= |a|
    ensures (a + [x])[..n] == a[..n]
  {
  }

  lemma SelectUnderCap(msgs: seq<ChatMessage>, sessionId: string, sorted: seq<ChatMessage>)
    requires sorted == SortByTime(MessagesOf(msgs, sessionId))
    requires |sorted| <= HistoryLimit
    ensures SelectHistory(msgs, sessionId) == sorted
  {
    assert sorted[..|sorted|] == sorted;
  }

  lemma SelectAtCap(msgs: seq<ChatMessage>, sessionId: string, sorted: seq<ChatMessage>)
    requires sorted == SortByTime(MessagesOf(msgs, sessionId))
    requires |sorted| >= HistoryLimit
    ensures SelectHistory(msgs, sessionId) == sorted[..HistoryLimit]
  {
  }

  lemma NewestAppended(msgs: seq<ChatMessage>, m: ChatMessage, sorted: seq<ChatMessage>)
    requires forall x :: x in msgs ==> x.timestamp <= m.timestamp
    requires sorted == SortByTime(MessagesOf(msgs, m.sessionId))
    ensures SortByTime(MessagesOf(msgs + [m], m.sessionId)) == sorted + [m]
  {
    var all := msgs + [m];
    assert all[..|all| - 1] == msgs;
    var ms := MessagesOf(msgs, m.sessionId);
    assert MessagesOf(all, m.sessionId) == ms + [m];
    assert (ms + [m])[..|ms|] == ms;
    forall x | x in sorted ensures x.timestamp <= m.timestamp {
      assert x in multiset(ms);
    }
    InsertNewest(m, sorted);
  }

  // ---------------------------------------------------------------------------
  // Model fallback and retry

  /** What the backend does with one send. */
  datatype Outcome = Reply(text: string) | Blocked | Error(message: string)

  /** One send: the index of the model in the candidate list, its name, and
      the attempt number on that model. */
  datatype Send = Send(modelIndex: nat, model: string, attempt: nat)

  /** `last_error`: none yet, the 400 raised for a blocked prompt, or a
      backend error. */
  datatype LastError = NoError | BlockedError | Failure(message: string)

  function OutcomeOf(oracle: (string, nat) -> Outcome, s: Send): Outcome {
    oracle(s.model, s.attempt)
  }

  /** An error counts as a rate limit when its text mentions 429 or quota. */
  predicate IsRateLimit(message: string) {
    Contains(message, "429") || Contains(Lower(message), "quota")
  }

  /** The outcome makes the loop sleep and send to the same model again. */
  predicate Retryable(o: Outcome, attempt: nat, maxRetries: nat) {
    o.Error? && IsRateLimit(o.message) && attempt + 1 < maxRetries
  }

  function ErrorOf(o: Outcome): LastError
    requires !o.Reply?
  {
    if o.Blocked? then BlockedError else Failure(o.message)
  }

  function Pow2(n: nat): (r: nat)
    ensures r >= 1
  {
    if n == 0 then 1 else 2 * Pow2(n - 1)
  }

  /** The sleeps a send sequence implies: `2**a` before each send that
      retries the same model after attempt `a`. */
  function RetryDelays(sends: seq<Send>): seq<nat> {
    if |sends| < 2 then []
    else
      (if sends[1].modelIndex == sends[0].modelIndex then [Pow2(sends[0].attempt)] else [])
      + RetryDelays(sends[1..])
  }

  lemma {:induction false} RetryDelaysConcat(a: seq<Send>, b: seq<Send>)
    requires |a| > 0
    requires |b| > 0 ==> b[0].modelIndex != a[|a| - 1].modelIndex
    ensures RetryDelays(a + b) == RetryDelays(a) + RetryDelays(b)
  {
    if |a| == 1 {
      if |b| > 0 {
        assert (a + b)[1..] == b;
      } else {
        assert a + b == a;
      }
    } else {
      RetryDelaysConcat(a[1..], b);
      assert (a + b)[1..] == a[1..] + b;
    }
  }

  function Last(sends: seq<Send>): Send
    requires |sends| > 0
  {
    sends[|sends| - 1]
  }

  /** How one model's attempts ended. */
  datatype ModelOutcome = Answered(text: string) | Failed(error: LastError)

  function Conclude(o: Outcome): ModelOutcome {
    match o
    case Reply(t) => Answered(Strip(t))
    case Blocked => Failed(BlockedError)
    case Error(m) => Failed(Failure(m))
  }

  datatype ModelRun = ModelRun(sends: seq<Send>, sleeps: seq<nat>, outcome: ModelOutcome)

  /** The retry loop on one model, from `attempt` on: consecutive attempts,
      each but the last a rate limit with retries left, the last one
      deciding the outcome. */
  function TryModel(oracle: (string, nat) -> Outcome, models: seq<string>, index: nat, attempt: nat, maxRetries: nat)
    : (r: ModelRun)
    requires index < |models| && attempt < maxRetries
    decreases maxRetries - attempt
    ensures 0 < |r.sends| <= maxRetries - attempt
    ensures forall j :: 0 <= j < |r.sends| ==> r.sends[j] == Send(index, models[index], attempt + j)
    ensures r.sleeps == RetryDelays(r.sends)
    ensures forall j :: 0 <= j < |r.sends| - 1 ==>
      Retryable(OutcomeOf(oracle, r.sends[j]), r.sends[j].attempt, maxRetries)
    ensures !Retryable(OutcomeOf(oracle, Last(r.sends)), Last(r.sends).attempt, maxRetries)
    ensures r.outcome == Conclude(OutcomeOf(oracle, Last(r.sends)))
  {
    var s := Send(index, models[index], attempt);
    var o := oracle(models[index], attempt);
    if Retryable(o, attempt, maxRetries) then
      var rest := TryModel(oracle, models, index, attempt + 1, maxRetries);
      RetryPrepends(s, rest.sends);
      ModelRun([s] + rest.sends, [Pow2(attempt)] + rest.sleeps, rest.outcome)
    else
      ModelRun([s], [], Conclude(o))
  }

  /** What prepending one send to a non-empty run does to its indices and
      its delays. */
  lemma RetryPrepends(s: Send, rest: seq<Send>)
    requires |rest| > 0 && rest[0].modelIndex == s.modelIndex
    ensures ([s] + rest)[0] == s
    ensures forall j :: 1 <= j < |rest| + 1 ==> ([s] + rest)[j] == rest[j - 1]
    ensures Last([s] + rest) == Last(rest)
    ensures RetryDelays([s] + rest) == [Pow2(s.attempt)] + RetryDelays(rest)
  {
    assert ([s] + rest)[1..] == rest;
  }

  /** The result of the model loop: the sends made, the sleeps taken, the
      answer if one arrived, and `last_error`. */
  datatype Run = Run(sends: seq<Send>, sleeps: seq<nat>, answer: Option<string>, lastError: LastError)

  /** Every send names a candidate at or after `from` by its index, and an
      attempt below the retry ceiling. */
  predicate SendsInRange(sends: seq<Send>, models: seq<string>, from: nat, maxRetries: nat) {
    forall k :: 0 <= k < |sends| ==>
      && from <= sends[k].modelIndex < |models|
      && sends[k].model == models[sends[k].modelIndex]
      && sends[k].attempt < maxRetries
  }

  /** What follows each send but the last: a retryable outcome is followed by
      the next attempt on the same model; any other non-reply outcome by the
      first attempt on the next model. No send but the last got a reply. */
  predicate Transitions(oracle: (string, nat) -> Outcome, sends: seq<Send>, maxRetries: nat) {
    forall k :: 0 <= k < |sends| - 1 ==> Step(oracle, sends[k], sends[k + 1], maxRetries)
  }

  predicate Step(oracle: (string, nat) -> Outcome, s: Send, next: Send, maxRetries: nat) {
    && !OutcomeOf(oracle, s).Reply?
    && (if Retryable(OutcomeOf(oracle, s), s.attempt, maxRetries)
        then next == s.(attempt := s.attempt + 1)
        else next.modelIndex == s.modelIndex + 1 && next.attempt == 0)
  }

  /** The sends of one model's retry loop obey the transitions. */
  lemma ModelRunTransitions(oracle: (string, nat) -> Outcome, models: seq<string>, index: nat, maxRetries: nat, m: ModelRun)
    requires index < |models| && 0 < maxRetries
    requires m == TryModel(oracle, models, index, 0, maxRetries)
    ensures Transitions(oracle, m.sends, maxRetries)
    ensures SendsInRange(m.sends, models, index, maxRetries)
  {
    forall k | 0 <= k < |m.sends| - 1 ensures Step(oracle, m.sends[k], m.sends[k + 1], maxRetries) {
      assert m.sends[k + 1] == Send(index, models[index], k + 1);
    }
  }

  /** A block of sends that ended without a reply, followed by sends that
      start on the next model, obeys the transitions throughout. */
  lemma TransitionsConcat(oracle: (string, nat) -> Outcome, a: seq<Send>, b: seq<Send>, maxRetries: nat)
    requires |a| > 0
    requires Transitions(oracle, a, maxRetries) && Transitions(oracle, b, maxRetries)
    requires |b| > 0 ==> Step(oracle, a[|a| - 1], b[0], maxRetries)
    ensures Transitions(oracle, a + b, maxRetries)
  {
    var s := a + b;
    forall k | 0 <= k < |s| - 1 ensures Step(oracle, s[k], s[k + 1], maxRetries) {
      if k < |a| - 1 {
        assert s[k] == a[k] && s[k + 1] == a[k + 1];
      } else if k == |a| - 1 {
        assert s[k] == a[|a| - 1] && s[k + 1] == b[0];
      } else {
        assert s[k] == b[k - |a|] && s[k + 1] == b[k - |a| + 1];
      }
    }
  }

  lemma SendsInRangeConcat(a: seq<Send>, b: seq<Send>, models: seq<string>, from: nat, maxRetries: nat)
    requires SendsInRange(a, models, from, maxRetries) && SendsInRange(b, models, from + 1, maxRetries)
    ensures SendsInRange(a + b, models, from, maxRetries)
  {
    var s := a + b;
    forall k | 0 <= k < |s| ensures from <= s[k].modelIndex < |models| && s[k].model == models[s[k].modelIndex] && s[k].attempt < maxRetries {
      if k < |a| { assert s[k] == a[k]; } else { assert s[k] == b[k - |a|]; }
    }
  }

  /** `models * retries`, the most sends the loop can make. */
  function Capacity(models: nat, retries: nat): nat {
    if models == 0 then 0 else retries + Capacity(models - 1, retries)
  }

  /** The sends of the model loop started at candidate `from`: at most
      `retries` per remaining candidate, each naming its candidate, none at
      all exactly when there is no candidate or no attempt allowed, the
      first one the first attempt on `from`, and consecutive ones related by
      `Step`. */
  predicate LoopShape(oracle: (string, nat) -> Outcome, models: seq<string>, from: nat, maxRetries: nat, sends: seq<Send>)
    requires from <= |models|
  {
    && |sends| <= Capacity(|models| - from, maxRetries)
    && SendsInRange(sends, models, from, maxRetries)
    && (maxRetries > 0 && from < |models| <==> |sends| > 0)
    && (|sends| > 0 ==> sends[0].modelIndex == from && sends[0].attempt == 0)
    && Transitions(oracle, sends, maxRetries)
  }

  /** How the model loop ends: with the stripped text of a reply to its last
      send, or, when that send got none, on the last candidate with no retry
      left and `last_error` set from it; with no sends, `last_error` is
      whatever it was before. */
  predicate LoopEnding(oracle: (string, nat) -> Outcome, models: seq<string>, maxRetries: nat, lastError: LastError, r: Run) {
    if |r.sends| == 0 then r.answer.None? && r.lastError == lastError
    else
      var o := OutcomeOf(oracle, Last(r.sends));
      && (r.answer.Some? <==> o.Reply?)
      && (o.Reply? ==> r.answer.value == Strip(o.text))
      && (!o.Reply? ==>
        && Last(r.sends).modelIndex == |models| - 1
        && !Retryable(o, Last(r.sends).attempt, maxRetries)
        && r.lastError == ErrorOf(o))
  }

  /** The model loop of `generate_response` over the candidates from index
      `from`. A blocked prompt ends the current model like any other error:
      its 400 is caught by the per-model handler and the next model is tried. */
  function TryModels(oracle: (string, nat) -> Outcome, models: seq<string>, from: nat, maxRetries: nat, lastError: LastError)
    : (r: Run)
    requires from <= |models|
    decreases |models| - from
    ensures LoopShape(oracle, models, from, maxRetries, r.sends)
    ensures r.sleeps == RetryDelays(r.sends)
    ensures LoopEnding(oracle, models, maxRetries, lastError, r)
  {
    if from == |models| then Run([], [], None, lastError)
    else if maxRetries == 0 then TryModels(oracle, models, from + 1, maxRetries, lastError)
    else
      var m := TryModel(oracle, models, from, 0, maxRetries);
      match m.outcome
      case Answered(t) =>
        AnsweredRun(oracle, models, from, maxRetries, lastError, m);
        Run(m.sends, m.sleeps, Some(t), lastError)
      case Failed(e) =>
        var rest := TryModels(oracle, models, from + 1, maxRetries, e);
        FailedShape(oracle, models, from, maxRetries, m, rest.sends);
        FailedEnding(oracle, models, from, maxRetries, lastError, m, rest);
        RetryDelaysConcat(m.sends, rest.sends);
        Run(m.sends + rest.sends, m.sleeps + rest.sleeps, rest.answer, rest.lastError)
  }

  /** A model that answered ends the loop with its own sends. */
  lemma AnsweredRun(oracle: (string, nat) -> Outcome, models: seq<string>, from: nat, maxRetries: nat, lastError: LastError, m: ModelRun)
    requires from < |models| && 0 < maxRetries
    requires m == TryModel(oracle, models, from, 0, maxRetries)
    requires m.outcome.Answered?
    ensures LoopShape(oracle, models, from, maxRetries, m.sends)
    ensures LoopEnding(oracle, models, maxRetries, lastError, Run(m.sends, m.sleeps, Some(m.outcome.text), lastError))
  {
    ModelRunTransitions(oracle, models, from, maxRetries, m);
  }

  /** A model that failed, followed by the loop over the later candidates,
      keeps the loop's shape. */
  lemma FailedShape(oracle: (string, nat) -> Outcome, models: seq<string>, from: nat, maxRetries: nat, m: ModelRun, rest: seq<Send>)
    requires from < |models| && 0 < maxRetries
    requires m == TryModel(oracle, models, from, 0, maxRetries)
    requires m.outcome.Failed?
    requires LoopShape(oracle, models, from + 1, maxRetries, rest)
    ensures LoopShape(oracle, models, from, maxRetries, m.sends + rest)
  {
    ModelRunTransitions(oracle, models, from, maxRetries, m);
    var sends := m.sends + rest;
    assert sends[0] == m.sends[0];
    TransitionsConcat(oracle, m.sends, rest, maxRetries);
    SendsInRangeConcat(m.sends, rest, models, from, maxRetries);
  }

  /** ... and ends as the later candidates' loop ends, or with this model's
      error when there are no later candidates. */
  lemma FailedEnding(oracle: (string, nat) -> Outcome, models: seq<string>, from: nat, maxRetries: nat, lastError: LastError, m: ModelRun, rest: Run)
    requires from < |models| && 0 < maxRetries
    requires m == TryModel(oracle, models, from, 0, maxRetries)
    requires m.outcome.Failed?
    requires from + 1 < |models| <==> |rest.sends| > 0
    requires LoopEnding(oracle, models, maxRetries, m.outcome.error, rest)
    ensures LoopEnding(oracle, models, maxRetries, lastError, Run(m.sends + rest.sends, m.sleeps + rest.sleeps, rest.answer, rest.lastError))
  {
    var sends := m.sends + rest.sends;
    if |rest.sends| == 0 {
      assert sends == m.sends;
    } else {
      assert Last(sends) == Last(rest.sends);
    }
  }

  // ---------------------------------------------------------------------------
  // generate_response

  /** One element of the content sent to the model. */
  datatype Part = TextPart(text: string) | ImagePart(mimeType: string, data: string)

  /** Everything one call of `generate_response` did: the instruction, history
      and content it built, its sends and sleeps, and its result. */
  datatype Generation = Generation(
    instruction: string,
    history: seq<HistoryTurn>,
    content: seq<Part>,
    sends: seq<Send>,
    sleeps: seq<nat>,
    result: Result<string, HttpError>)

  /** The text of the 400 raised for a blocked prompt. */
  const BlockedDetail := "400: Content blocked due to safety filters"

  const UnavailablePrefix := "AI service unavailable: "

  /** `str(last_error)` */
  function ErrorText(e: LastError): string {
    match e
    case NoError => "None"
    case BlockedError => BlockedDetail
    case Failure(m) => m
  }

  /** The error Python raises for `None.upper()`. */
  const NoneUpperMessage := "'NoneType' object has no attribute 'upper'"

  /** `[user_message]`, plus the image part when an image is given. */
  function BuildContent(userMessage: string, fileContent: Option<ImageContent>): seq<Part> {
    [TextPart(userMessage)]
      + (if fileContent.Some? then [ImagePart(fileContent.value.mimeType, fileContent.value.imageBase64)] else [])
  }

  /** `generate_response`. `stored` is what loading the history finds in the
      store, or the store's failure; `language` may be absent, as the upload
      route can pass `None`. Failures before the model loop give 500; when
      every model fails the result is 503 carrying `last_error`; a blocked
      prompt never escapes as 400. */
  function GenerateResponse(
    stored: Result<seq<ChatMessage>, string>,
    sessionId: string,
    userMessage: string,
    fileContent: Option<ImageContent>,
    language: Option<string>,
    oracle: (string, nat) -> Outcome): (r: Generation)
    ensures r.result.Err? ==> r.result.error.status == 500 || r.result.error.status == 503
    ensures r.result.Err? && r.result.error.status == 500 <==> stored.Err? || language.None?
    ensures stored.Err? || language.None? ==> r.sends == [] && r.sleeps == []
    ensures |r.sends| <= |Config.AI_MODEL_NAMES| * Config.AI_MAX_RETRIES
    ensures r.result.Ok? <==> |r.sends| > 0 && OutcomeOf(oracle, Last(r.sends)).Reply?
    ensures r.result.Ok? ==> r.result.value == Strip(OutcomeOf(oracle, Last(r.sends)).text)
    ensures stored.Ok? && language.Some? ==>
      && r.history == LoadChatHistory(stored.value, sessionId)
      && Contains(r.instruction, Disclaimer) && Contains(r.instruction, Upper(language.value))
      && |r.content| > 0 && r.content[0] == TextPart(userMessage)
      && (|r.content| == 2 <==> fileContent.Some?)
      && (fileContent.Some? ==> r.content[1] == ImagePart(fileContent.value.mimeType, fileContent.value.imageBase64))
      && |r.sends| > 0 && r.sends[0] == Send(0, Config.AI_MODEL_NAMES[0], 0)
  {
    match stored
    case Err(e) => Generation("", [], [], [], [], Err(HttpError(500, "Internal server error: " + e)))
    case Ok(msgs) =>
      if language.None? then
        Generation("", LoadChatHistory(msgs, sessionId), [], [], [],
          Err(HttpError(500, "Internal server error: " + NoneUpperMessage)))
      else
        Generate(msgs, sessionId, userMessage, fileContent, language.value, oracle)
  }

  /** The model loop as `generate_response` runs it: every configured
      candidate in order, the configured retry ceiling, no error yet. */
  function ModelLoop(oracle: (string, nat) -> Outcome): Run {
    TryModels(oracle, Config.AI_MODEL_NAMES, 0, Config.AI_MAX_RETRIES, NoError)
  }

  /** The part of `generate_response` after the instruction is built: the
      model loop over the configured candidates, from a fresh `last_error`. */
  function Generate(
    msgs: seq<ChatMessage>,
    sessionId: string,
    userMessage: string,
    fileContent: Option<ImageContent>,
    language: string,
    oracle: (string, nat) -> Outcome): (r: Generation)
    ensures r.result.Err? ==> r.result.error.status == 503
    ensures 0 < |r.sends| <= |Config.AI_MODEL_NAMES| * Config.AI_MAX_RETRIES
    ensures r.sends[0] == Send(0, Config.AI_MODEL_NAMES[0], 0)
    ensures r.result.Ok? <==> OutcomeOf(oracle, Last(r.sends)).Reply?
    ensures r.result.Ok? ==> r.result.value == Strip(OutcomeOf(oracle, Last(r.sends)).text)
    ensures r.history == LoadChatHistory(msgs, sessionId)
    ensures Contains(r.instruction, Disclaimer) && Contains(r.instruction, Upper(language))
    ensures |r.content| > 0 && r.content[0] == TextPart(userMessage)
    ensures |r.content| == 2 <==> fileContent.Some?
    ensures fileContent.Some? ==> r.content[1] == ImagePart(fileContent.value.mimeType, fileContent.value.imageBase64)
  {
    var run := ModelLoop(oracle);
    assert Capacity(|Config.AI_MODEL_NAMES|, Config.AI_MAX_RETRIES) == 6;
    var result := if run.answer.Some? then Ok(run.answer.value)
      else Err(HttpError(503, UnavailablePrefix + ErrorText(run.lastError)));
    Generation(SystemInstruction(language), LoadChatHistory(msgs, sessionId),
      BuildContent(userMessage, fileContent), run.sends, run.sleeps, result)
  }
}

/** Consequences of `generate_response`'s control flow for the configured
    candidates and retry ceiling: backoff on rate limits, fallthrough on a
    blocked prompt or any other error, and stopping at the first reply. */
module AiServiceFacts {
  import opened Wrappers
  import opened Text
  import opened Records
  import opened AiService
  import Config

  const Primary := Config.AI_MODEL_NAMES[0]
  const Fallback := Config.AI_MODEL_NAMES[1]

  /** With a stored history and a language, the generation's sends, sleeps
      and result are those of the model loop. */
  lemma GenerationIsLoop(stored: Result<seq<ChatMessage>, string>, sessionId: string, userMessage: string,
                         fileContent: Option<ImageContent>, language: string, oracle: (string, nat) -> Outcome)
    requires stored.Ok?
    ensures var r := GenerateResponse(stored, sessionId, userMessage, fileContent, Some(language), oracle);
      && r.sends == ModelLoop(oracle).sends && r.sleeps == ModelLoop(oracle).sleeps
      && r.result == (if ModelLoop(oracle).answer.Some? then Ok(ModelLoop(oracle).answer.value)
                      else Err(HttpError(503, UnavailablePrefix + ErrorText(ModelLoop(oracle).lastError))))
  {
  }

  /** The first reply of the primary model is the answer: one send, no sleep. */
  lemma LoopFirstReplyStops(oracle: (string, nat) -> Outcome)
    requires oracle(Primary, 0).Reply?
    ensures ModelLoop(oracle) == Run([Send(0, Primary, 0)], [], Some(Strip(oracle(Primary, 0).text)), NoError)
  {
    var m := TryModel(oracle, Config.AI_MODEL_NAMES, 0, 0, Config.AI_MAX_RETRIES);
    assert m.sends == [Send(0, Primary, 0)];
  }

  /** A blocked prompt does not end the turn: the fallback model gets the
      next send, with no sleep in between. */
  lemma LoopBlockedFallsThrough(oracle: (string, nat) -> Outcome)
    requires oracle(Primary, 0).Blocked?
    ensures |ModelLoop(oracle).sends| >= 2
    ensures ModelLoop(oracle).sends[..2] == [Send(0, Primary, 0), Send(1, Fallback, 0)]
    ensures ModelLoop(oracle).sleeps == RetryDelays(ModelLoop(oracle).sends[1..])
  {
    var m := TryModel(oracle, Config.AI_MODEL_NAMES, 0, 0, Config.AI_MAX_RETRIES);
    assert m.sends == [Send(0, Primary, 0)];
    var rest := TryModels(oracle, Config.AI_MODEL_NAMES, 1, Config.AI_MAX_RETRIES, BlockedError);
    assert rest.sends[0] == Send(1, Fallback, 0);
    assert ModelLoop(oracle).sends == m.sends + rest.sends;
    assert (m.sends + rest.sends)[1..] == rest.sends;
  }

  /** When both models block the prompt, the loop ends after one send each,
      without sleeping, with the blocked prompt's error as `last_error`. */
  lemma LoopBothBlocked(oracle: (string, nat) -> Outcome)
    requires oracle(Primary, 0).Blocked? && oracle(Fallback, 0).Blocked?
    ensures ModelLoop(oracle) == Run([Send(0, Primary, 0), Send(1, Fallback, 0)], [], None, BlockedError)
  {
    var m0 := TryModel(oracle, Config.AI_MODEL_NAMES, 0, 0, Config.AI_MAX_RETRIES);
    assert m0.sends == [Send(0, Primary, 0)];
    var m1 := TryModel(oracle, Config.AI_MODEL_NAMES, 1, 0, Config.AI_MAX_RETRIES);
    assert m1.sends == [Send(1, Fallback, 0)];
    var rest := TryModels(oracle, Config.AI_MODEL_NAMES, 1, Config.AI_MAX_RETRIES, BlockedError);
    assert rest == Run([Send(1, Fallback, 0)], [], None, BlockedError);
  }

  /** ... so the turn fails with 503, its detail carrying the 400 text. */
  lemma BothBlockedIs503(stored: Result<seq<ChatMessage>, string>, sessionId: string, userMessage: string,
                         fileContent: Option<ImageContent>, language: string, oracle: (string, nat) -> Outcome)
    requires stored.Ok?
    requires oracle(Primary, 0).Blocked? && oracle(Fallback, 0).Blocked?
    ensures GenerateResponse(stored, sessionId, userMessage, fileContent, Some(language), oracle).result
      == Err(HttpError(503, UnavailablePrefix + BlockedDetail))
  {
    LoopBothBlocked(oracle);
    GenerationIsLoop(stored, sessionId, userMessage, fileContent, language, oracle);
  }

  /** A primary model that answers every attempt with a rate limit is tried
      three times before the fallback model's first attempt. */
  lemma LoopRateLimitRetries(oracle: (string, nat) -> Outcome)
    requires forall a :: 0 <= a < Config.AI_MAX_RETRIES ==>
      oracle(Primary, a).Error? && IsRateLimit(oracle(Primary, a).message)
    ensures |ModelLoop(oracle).sends| >= 4
    ensures ModelLoop(oracle).sends[..4]
      == [Send(0, Primary, 0), Send(0, Primary, 1), Send(0, Primary, 2), Send(1, Fallback, 0)]
  {
    var m := TryModel(oracle, Config.AI_MODEL_NAMES, 0, 0, Config.AI_MAX_RETRIES);
    PrimaryExhausted(oracle, m);
    var rest := TryModels(oracle, Config.AI_MODEL_NAMES, 1, Config.AI_MAX_RETRIES, m.outcome.error);
    FallbackStarts(oracle, m.outcome.error, rest);
    LoopAfterPrimary(oracle, m, rest);
    PrefixOfAppend(m.sends, [rest.sends[0]], rest.sends[1..]);
  }

  /** ... and between those three attempts the loop sleeps 1 s, then 2 s. */
  lemma LoopRateLimitBackoff(oracle: (string, nat) -> Outcome)
    requires forall a :: 0 <= a < Config.AI_MAX_RETRIES ==>
      oracle(Primary, a).Error? && IsRateLimit(oracle(Primary, a).message)
    ensures |ModelLoop(oracle).sleeps| >= 2 && ModelLoop(oracle).sleeps[..2] == [1, 2]
  {
    var m := TryModel(oracle, Config.AI_MODEL_NAMES, 0, 0, Config.AI_MAX_RETRIES);
    PrimaryExhausted(oracle, m);
    var rest := TryModels(oracle, Config.AI_MODEL_NAMES, 1, Config.AI_MAX_RETRIES, m.outcome.error);
    LoopAfterPrimary(oracle, m, rest);
    PrefixOfAppend(m.sleeps, rest.sleeps, []);
  }

  /** A primary model that gave up hands over to the fallback model: the
      loop's sends and sleeps are the primary's followed by the rest. */
  lemma LoopAfterPrimary(oracle: (string, nat) -> Outcome, m: ModelRun, rest: Run)
    requires m == TryModel(oracle, Config.AI_MODEL_NAMES, 0, 0, Config.AI_MAX_RETRIES)
    requires m.outcome.Failed?
    requires rest == TryModels(oracle, Config.AI_MODEL_NAMES, 1, Config.AI_MAX_RETRIES, m.outcome.error)
    ensures ModelLoop(oracle).sends == m.sends + rest.sends
    ensures ModelLoop(oracle).sleeps == m.sleeps + rest.sleeps
  {
  }

  /** After the primary model fails, the fallback model's first attempt is
      the next send. */
  lemma FallbackStarts(oracle: (string, nat) -> Outcome, e: LastError, rest: Run)
    requires rest == TryModels(oracle, Config.AI_MODEL_NAMES, 1, Config.AI_MAX_RETRIES, e)
    ensures |rest.sends| > 0 && rest.sends[0] == Send(1, Fallback, 0)
    ensures rest.sends == [rest.sends[0]] + rest.sends[1..]
  {
  }

  lemma PrimaryExhausted(oracle: (string, nat) -> Outcome, m: ModelRun)
    requires forall a :: 0 <= a < Config.AI_MAX_RETRIES ==>
      oracle(Primary, a).Error? && IsRateLimit(oracle(Primary, a).message)
    requires m == TryModel(oracle, Config.AI_MODEL_NAMES, 0, 0, Config.AI_MAX_RETRIES)
    ensures m.sends == [Send(0, Primary, 0), Send(0, Primary, 1), Send(0, Primary, 2)]
    ensures m.sleeps == [1, 2]
    ensures m.outcome.Failed?
  {
    assert oracle(Primary, 0).Error? && oracle(Primary, 1).Error? && oracle(Primary, 2).Error?;
    var m2 := TryModel(oracle, Config.AI_MODEL_NAMES, 0, 2, Config.AI_MAX_RETRIES);
    assert m2.sends == [Send(0, Primary, 2)];
    var m1 := TryModel(oracle, Config.AI_MODEL_NAMES, 0, 1, Config.AI_MAX_RETRIES);
    assert m1.sends == [Send(0, Primary, 1), Send(0, Primary, 2)];
  }

  lemma PrefixOfAppend<T>(a: seq<T>, b: seq<T>, c: seq<T>)
    ensures (a + (b + c))[..|a| + |b|] == a + b
  {
  }
}
