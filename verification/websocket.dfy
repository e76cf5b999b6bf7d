/** The websocket side of the chat: the registry of open connections per
    session (`ConnectionManager`) and one step of the per-connection loop of
    `handle_websocket`. A connection is known only by its identity; whether
    a send to it succeeds is given by `sendOk`. */
module Websocket {
  import opened Wrappers
  import opened Records
  import opened Config
  import opened AiService
  import Turn

  /** A websocket, by identity. */
  type Conn = nat

  /** `active_connections`: session id to its open connections. */
  type Registry = map<string, seq<Conn>>

  /** No session is listed with an empty list of connections. */
  predicate NoEmptyLists(reg: Registry) {
    forall sid :: sid in reg ==> |reg[sid]| > 0
  }

  function ConnectionsOf(reg: Registry, sessionId: string): seq<Conn> {
    if sessionId in reg then reg[sessionId] else []
  }

  // ---------------------------------------------------------------------------
  // connect / disconnect

  /** `connect`: appends the socket to its session's list, creating the
      list when the session has none. */
  function Connect(reg: Registry, sessionId: string, ws: Conn): (r: Registry)
    ensures r.Keys == reg.Keys + {sessionId}
    ensures r[sessionId] == ConnectionsOf(reg, sessionId) + [ws]
    ensures forall sid :: sid in reg && sid != sessionId ==> r[sid] == reg[sid]
  {
    reg[sessionId := ConnectionsOf(reg, sessionId) + [ws]]
  }

  /** `list.remove(x)`: drops the first occurrence of `x`. */
  function RemoveFirst(s: seq<Conn>, x: Conn): (r: seq<Conn>)
    ensures x !in s ==> r == s
    ensures x in s ==> |r| == |s| - 1
  {
    if s == [] then []
    else if s[0] == x then s[1..]
    else [s[0]] + RemoveFirst(s[1..], x)
  }

  /** Removal takes away exactly one copy of `x`, when there is one. */
  lemma {:induction false} RemoveFirstOneCopy(s: seq<Conn>, x: Conn)
    ensures multiset(RemoveFirst(s, x)) == multiset(s) - multiset{x}
  {
    if s != [] {
      assert s == [s[0]] + s[1..];
      if s[0] != x {
        RemoveFirstOneCopy(s[1..], x);
      }
    }
  }

  /** Removing an element that is absent from the front part removes it from
      where it first occurs behind that part. */
  lemma {:induction false} RemoveFirstBehind(a: seq<Conn>, x: Conn, b: seq<Conn>)
    requires x !in a
    ensures RemoveFirst(a + [x] + b, x) == a + b
  {
    if a != [] {
      assert a + [x] + b == [a[0]] + (a[1..] + [x] + b);
      RemoveFirstBehind(a[1..], x, b);
      assert a + b == [a[0]] + (a[1..] + b);
    } else {
      assert a + [x] + b == [x] + b;
    }
  }

  /** `disconnect`: removes the socket if it is listed and drops the
      session's entry once its list is empty; an unknown session is left
      alone. */
  function Disconnect(reg: Registry, sessionId: string, ws: Conn): (r: Registry)
    ensures sessionId !in reg ==> r == reg
    ensures r.Keys <= reg.Keys
    ensures sessionId in reg ==>
      (sessionId in r <==> |RemoveFirst(reg[sessionId], ws)| > 0)
    ensures sessionId in r ==> r[sessionId] == RemoveFirst(reg[sessionId], ws)
    ensures forall sid :: sid in reg && sid != sessionId ==> sid in r && r[sid] == reg[sid]
  {
    if sessionId !in reg then reg
    else
      var remaining := if ws in reg[sessionId] then RemoveFirst(reg[sessionId], ws) else reg[sessionId];
      if |remaining| == 0 then reg - {sessionId} else reg[sessionId := remaining]
  }

  /** Disconnecting a socket that was just connected, and was not listed
      before, restores the registry. */
  lemma DisconnectUndoesConnect(reg: Registry, sessionId: string, ws: Conn)
    requires NoEmptyLists(reg)
    requires ws !in ConnectionsOf(reg, sessionId)
    ensures Disconnect(Connect(reg, sessionId, ws), sessionId, ws) == reg
  {
    var before := ConnectionsOf(reg, sessionId);
    RemoveFirstBehind(before, ws, []);
    assert before + [ws] + [] == before + [ws];
    assert before + [] == before;
  }

  // ---------------------------------------------------------------------------
  // broadcast

  /** The connections of `s`, in order, whose sends succeed. */
  function Healthy(s: seq<Conn>, sendOk: Conn -> bool): (r: seq<Conn>)
    ensures |r| <= |s|
    ensures forall c :: c in r ==> c in s && sendOk(c)
    ensures forall c :: c in s && sendOk(c) ==> c in r
  {
    if s == [] then []
    else (if sendOk(s[0]) then [s[0]] else []) + Healthy(s[1..], sendOk)
  }

  datatype SendRound = SendRound(remaining: seq<Conn>, delivered: seq<Conn>)

  /** The loop of `broadcast` over the snapshot `pending`: a successful send
      delivers, a failed one removes that connection from the live list. */
  function SendEach(pending: seq<Conn>, live: seq<Conn>, sendOk: Conn -> bool): SendRound {
    if pending == [] then SendRound(live, [])
    else
      var c := pending[0];
      if sendOk(c) then
        var rest := SendEach(pending[1..], live, sendOk);
        SendRound(rest.remaining, [c] + rest.delivered)
      else
        SendEach(pending[1..], RemoveFirst(live, c), sendOk)
  }

  /** Over a live list made of healthy connections `h` followed by the
      pending snapshot, the loop delivers to the healthy part of the
      snapshot and leaves exactly `h` plus that part live. */
  lemma {:induction false} SendEachKeepsHealthy(h: seq<Conn>, pending: seq<Conn>, sendOk: Conn -> bool)
    requires forall c :: c in h ==> sendOk(c)
    ensures SendEach(pending, h + pending, sendOk) == SendRound(h + Healthy(pending, sendOk), Healthy(pending, sendOk))
    decreases |pending|
  {
    if pending == [] {
      assert h + pending == h;
      assert h + Healthy(pending, sendOk) == h;
    } else {
      var c := pending[0];
      var tail := pending[1..];
      var ht := Healthy(tail, sendOk);
      assert h + pending == (h + [c]) + tail;
      if sendOk(c) {
        assert Healthy(pending, sendOk) == [c] + ht;
        SendEachKeepsHealthy(h + [c], tail, sendOk);
        assert (h + [c]) + ht == h + ([c] + ht);
      } else {
        assert Healthy(pending, sendOk) == ht;
        assert c !in h;
        RemoveFirstBehind(h, c, tail);
        assert RemoveFirst(h + pending, c) == h + tail;
        SendEachKeepsHealthy(h, tail, sendOk);
      }
    }
  }

  datatype Broadcasted = Broadcasted(registry: Registry, delivered: seq<Conn>)

  /** `broadcast`: sends to every connection of a snapshot of the session's
      list; those that fail are removed and an emptied session loses its
      entry. Nothing happens for an unknown session. */
  function Broadcast(reg: Registry, sessionId: string, sendOk: Conn -> bool): (r: Broadcasted)
    ensures sessionId !in reg ==> r == Broadcasted(reg, [])
    ensures sessionId in reg ==> r.delivered == Healthy(reg[sessionId], sendOk)
    ensures sessionId in reg ==>
      (sessionId in r.registry <==> |Healthy(reg[sessionId], sendOk)| > 0)
    ensures sessionId in r.registry ==> r.registry[sessionId] == Healthy(reg[sessionId], sendOk)
    ensures r.registry.Keys <= reg.Keys
    ensures forall sid :: sid in reg && sid != sessionId ==> sid in r.registry && r.registry[sid] == reg[sid]
  {
    if sessionId !in reg then Broadcasted(reg, [])
    else
      var snapshot := reg[sessionId];
      var round := SendEach(snapshot, snapshot, sendOk);
      SendEachKeepsHealthy([], snapshot, sendOk);
      assert [] + snapshot == snapshot;
      assert [] + Healthy(snapshot, sendOk) == Healthy(snapshot, sendOk);
      var live := round.remaining;
      Broadcasted(if |live| == 0 then reg - {sessionId} else reg[sessionId := live], round.delivered)
  }

  /** connect, disconnect and broadcast never leave a session listed with no
      connections. */
  lemma RegistryKeepsNoEmptyLists(reg: Registry, sessionId: string, ws: Conn, sendOk: Conn -> bool)
    requires NoEmptyLists(reg)
    ensures NoEmptyLists(Connect(reg, sessionId, ws))
    ensures NoEmptyLists(Disconnect(reg, sessionId, ws))
    ensures NoEmptyLists(Broadcast(reg, sessionId, sendOk).registry)
  {
  }

  // ---------------------------------------------------------------------------
  // One step of handle_websocket

  /** The store and the registry together. */
  datatype World = World(store: Store, registry: Registry)

  /** What one received text led to: the new world, the texts sent to this
      socket alone, the broadcast (its text and the connections it reached),
      whether the loop goes on for this socket, and the generation if the
      generator was called. */
  datatype WsStep = WsStep(
    world: World,
    toSender: seq<string>,
    broadcastText: Option<string>,
    reached: seq<Conn>,
    open: bool,
    generation: Option<Generation>)

  /** Persists the user text and `reply`, then broadcasts `reply`. */
  function ReplyAndBroadcast(w: World, st: Store, sessionId: string, msg: string, reply: string,
                             sendOk: Conn -> bool, now: int): WsStep {
    var b := Broadcast(w.registry, sessionId, sendOk);
    WsStep(
      World(Insert(Insert(st, UserMessage(sessionId, msg, now)), AssistantMessage(sessionId, reply, now)), b.registry),
      [], Some(reply), b.delivered, true, None)
  }

  /** A text sent to this socket alone. When the send fails it raises out of
      the loop: the handler disconnects the socket and the loop ends, with
      the store as it was when the send was attempted. */
  function Notify(w: World, sessionId: string, ws: Conn, notice: string, sendOk: Conn -> bool): (r: WsStep)
    ensures r.world.store == w.store && r.broadcastText.None? && r.reached == [] && r.generation.None?
    ensures r.open <==> sendOk(ws)
    ensures r.open ==> r.world.registry == w.registry && r.toSender == [notice]
    ensures !r.open ==> r.world.registry == Disconnect(w.registry, sessionId, ws) && r.toSender == []
  {
    if sendOk(ws) then WsStep(w, [notice], None, [], true, None)
    else WsStep(World(w.store, Disconnect(w.registry, sessionId, ws)), [], None, [], false, None)
  }

  /** One iteration of the receive loop of `handle_websocket` for the text
      `msg` arriving on `ws`. The turn language comes from the stored
      session only; the generator is called only for a turn that asks it
      and only when it is configured. */
  function HandleWsMessage(w: World, sessionId: string, ws: Conn, msg: string, consts: AppConstants,
                           aiAvailable: bool, oracle: (string, nat) -> Outcome,
                           sendOk: Conn -> bool, now: int): (r: WsStep)
    ensures sessionId !in w.store.sessions ==>
      && r.world.store == w.store && r.generation.None?
      && (r.open <==> sendOk(ws))
      && (sendOk(ws) ==> r.world.registry == w.registry && r.toSender == [Turn.SessionNotFound])
      && (!sendOk(ws) ==> r.world.registry == Disconnect(w.registry, sessionId, ws))
  {
    if sessionId !in w.store.sessions then Notify(w, sessionId, ws, Turn.SessionNotFound, sendOk)
    else
      var turn := Turn.DecideTurn(msg, w.store.sessions[sessionId].language, consts);
      var g := if turn.AskAi? && aiAvailable then
        Some(GenerateResponse(Ok(w.store.messages + [UserMessage(sessionId, msg, now)]), sessionId, msg, None, Some(turn.language), oracle))
      else None;
      TakeTurn(w, sessionId, ws, msg, turn, consts, g, sendOk, now)
  }

  /** The branches of one iteration once the turn is decided; `g` is the
      generation when one took place. A failed generation, or a failed send
      of the notice that no generator is configured, raises inside the loop,
      and the handler disconnects this socket. */
  function TakeTurn(w: World, sessionId: string, ws: Conn, msg: string, turn: Turn.TurnKind, consts: AppConstants,
                    g: Option<Generation>, sendOk: Conn -> bool, now: int): (r: WsStep)
    ensures r.generation == (if turn.AskAi? then g else None)
    ensures !r.open <==> turn.AskAi? && (if g.Some? then g.value.result.Err? else !sendOk(ws))
  {
    match turn
    case SwitchLanguage(l) =>
      ReplyAndBroadcast(w, SetLanguage(w.store, sessionId, l, now), sessionId, msg, Turn.Confirmation(l, consts), sendOk, now)
    case PromptForLanguage =>
      ReplyAndBroadcast(w, w.store, sessionId, msg, consts.languagePrompt, sendOk, now)
    case AskAi(_) =>
      var st := Insert(w.store, UserMessage(sessionId, msg, now));
      match g
      case None => Notify(World(st, w.registry), sessionId, ws, Turn.AiNotAvailable, sendOk)
      case Some(gen) =>
        if gen.result.Err? then WsStep(World(st, Disconnect(w.registry, sessionId, ws)), [], None, [], false, g)
        else
          var b := Broadcast(w.registry, sessionId, sendOk);
          WsStep(World(Insert(st, AssistantMessage(sessionId, gen.result.value, now)), b.registry),
            [], Some(gen.result.value), b.delivered, true, g)
  }

  /** A generated reply is stored after the user text and broadcast. */
  lemma TakeTurnReplies(w: World, sessionId: string, ws: Conn, msg: string, l: string, consts: AppConstants,
                        gen: Generation, sendOk: Conn -> bool, now: int)
    requires gen.result.Ok?
    ensures var r := TakeTurn(w, sessionId, ws, msg, Turn.AskAi(l), consts, Some(gen), sendOk, now);
      var reply := gen.result.value;
      && r.world.store.messages == w.store.messages + [UserMessage(sessionId, msg, now), AssistantMessage(sessionId, reply, now)]
      && r.world.store.sessions == w.store.sessions
      && r.broadcastText == Some(reply)
      && r.reached == Healthy(ConnectionsOf(w.registry, sessionId), sendOk)
      && r.toSender == [] && r.open
  {
  }

  /** Every branch keeps the stored languages supported, every stored message
      attached to a stored session, and no session listed without sockets,
      provided a requested switch names a supported language. */
  lemma TakeTurnKeepsInvariants(w: World, sessionId: string, ws: Conn, msg: string, turn: Turn.TurnKind, consts: AppConstants,
                                g: Option<Generation>, sendOk: Conn -> bool, now: int)
    requires sessionId in w.store.sessions
    requires turn.SwitchLanguage? ==> turn.language in consts.supportedLanguages
    requires LanguagesSupported(w.store, consts.supportedLanguages)
    requires NoOrphanMessages(w.store)
    requires NoEmptyLists(w.registry)
    ensures var r := TakeTurn(w, sessionId, ws, msg, turn, consts, g, sendOk, now);
      && LanguagesSupported(r.world.store, consts.supportedLanguages)
      && NoOrphanMessages(r.world.store)
      && NoEmptyLists(r.world.registry)
  {
    RegistryKeepsNoEmptyLists(w.registry, sessionId, ws, sendOk);
    var r := TakeTurn(w, sessionId, ws, msg, turn, consts, g, sendOk, now);
    var st := if turn.SwitchLanguage? then SetLanguage(w.store, sessionId, turn.language, now) else w.store;
    assert sessionId in st.sessions && st.sessions.Keys == w.store.sessions.Keys && NoOrphanMessages(st);
    forall k | 0 <= k < |r.world.store.messages|
      ensures r.world.store.messages[k].sessionId in r.world.store.sessions
    {
      if k >= |w.store.messages| {
        assert r.world.store.messages[k].sessionId == sessionId;
      } else {
        assert r.world.store.messages[k] == w.store.messages[k];
      }
    }
  }
}

/** What one received text does to the store, the registry and the sockets,
    branch by branch, and the invariants every step keeps. */
module WebsocketFacts {
  import opened Wrappers
  import opened Records
  import opened Config
  import opened AiService
  import opened Websocket
  import Turn

  /** A detected, supported language request is stored and confirmed to
      every healthy socket of the session, whatever language was stored
      before and whether or not a generator exists; the generator is not
      called. */
  lemma WsSwitchConfirms(w: World, sessionId: string, ws: Conn, msg: string, consts: AppConstants,
                         aiAvailable: bool, oracle: (string, nat) -> Outcome,
                         sendOk: Conn -> bool, now: int, l: string)
    requires sessionId in w.store.sessions
    requires Turn.RequestedSwitch(msg, consts) == Some(l)
    ensures var r := HandleWsMessage(w, sessionId, ws, msg, consts, aiAvailable, oracle, sendOk, now);
      var reply := Turn.Confirmation(l, consts);
      && r.world.store.messages == w.store.messages + [UserMessage(sessionId, msg, now), AssistantMessage(sessionId, reply, now)]
      && r.world.store.sessions == w.store.sessions[sessionId := w.store.sessions[sessionId].(language := Some(l), updatedAt := now)]
      && r.broadcastText == Some(reply)
      && r.reached == Healthy(ConnectionsOf(w.registry, sessionId), sendOk)
      && r.toSender == [] && r.open && r.generation.None?
  {
  }

  /** With no language stored and none requested, the user text and the
      language prompt are stored and the prompt is broadcast; the session
      is left as it was. */
  lemma WsPromptsForLanguage(w: World, sessionId: string, ws: Conn, msg: string, consts: AppConstants,
                             aiAvailable: bool, oracle: (string, nat) -> Outcome,
                             sendOk: Conn -> bool, now: int)
    requires sessionId in w.store.sessions
    requires Turn.RequestedSwitch(msg, consts).None?
    requires w.store.sessions[sessionId].language.None?
    ensures var r := HandleWsMessage(w, sessionId, ws, msg, consts, aiAvailable, oracle, sendOk, now);
      && r.world.store.messages == w.store.messages + [UserMessage(sessionId, msg, now), AssistantMessage(sessionId, consts.languagePrompt, now)]
      && r.world.store.sessions == w.store.sessions
      && r.broadcastText == Some(consts.languagePrompt)
      && r.reached == Healthy(ConnectionsOf(w.registry, sessionId), sendOk)
      && r.toSender == [] && r.open && r.generation.None?
  {
  }

  /** Without a generator the user text is still stored, and only the
      sending socket hears that the service is unavailable; if that send
      fails, the socket is disconnected and its loop ends. */
  lemma WsWithoutGenerator(w: World, sessionId: string, ws: Conn, msg: string, consts: AppConstants,
                           oracle: (string, nat) -> Outcome, sendOk: Conn -> bool, now: int)
    requires sessionId in w.store.sessions
    requires Turn.RequestedSwitch(msg, consts).None?
    requires w.store.sessions[sessionId].language.Some?
    ensures var r := HandleWsMessage(w, sessionId, ws, msg, consts, false, oracle, sendOk, now);
      && r.world.store == w.store.(messages := w.store.messages + [UserMessage(sessionId, msg, now)])
      && r.broadcastText.None? && r.reached == [] && r.generation.None?
      && (r.open <==> sendOk(ws))
      && (sendOk(ws) ==> r.world.registry == w.registry && r.toSender == [Turn.AiNotAvailable])
      && (!sendOk(ws) ==> r.world.registry == Disconnect(w.registry, sessionId, ws) && r.toSender == [])
  {
  }

  /** With a stored language and a generator, the generator is called in
      that language on the history that already holds the user text, and
      its reply is stored after the user text and broadcast. */
  lemma WsAsksGenerator(w: World, sessionId: string, ws: Conn, msg: string, consts: AppConstants,
                        oracle: (string, nat) -> Outcome, sendOk: Conn -> bool, now: int, l: string)
    requires sessionId in w.store.sessions
    requires Turn.RequestedSwitch(msg, consts).None?
    requires w.store.sessions[sessionId].language == Some(l)
    ensures var r := HandleWsMessage(w, sessionId, ws, msg, consts, true, oracle, sendOk, now);
      && r.generation == Some(GenerateResponse(Ok(w.store.messages + [UserMessage(sessionId, msg, now)]), sessionId, msg, None, Some(l), oracle))
      && r.world.store.sessions == w.store.sessions
      && r.toSender == []
      && (r.generation.value.result.Ok? ==>
            var reply := r.generation.value.result.value;
            && r.world.store.messages == w.store.messages + [UserMessage(sessionId, msg, now), AssistantMessage(sessionId, reply, now)]
            && r.broadcastText == Some(reply)
            && r.reached == Healthy(ConnectionsOf(w.registry, sessionId), sendOk)
            && r.open)
  {
    var g := GenerateResponse(Ok(w.store.messages + [UserMessage(sessionId, msg, now)]), sessionId, msg, None, Some(l), oracle);
    if g.result.Ok? {
      TakeTurnReplies(w, sessionId, ws, msg, l, consts, g, sendOk, now);
    }
  }

  /** A failed generation leaves only the user text stored, broadcasts
      nothing, and takes the sending socket out of the registry. */
  lemma WsGenerationFails(w: World, sessionId: string, ws: Conn, msg: string, consts: AppConstants,
                          oracle: (string, nat) -> Outcome, sendOk: Conn -> bool, now: int)
    requires sessionId in w.store.sessions
    requires Turn.RequestedSwitch(msg, consts).None?
    requires w.store.sessions[sessionId].language.Some?
    ensures var r := HandleWsMessage(w, sessionId, ws, msg, consts, true, oracle, sendOk, now);
      && r.generation.Some?
      && (r.generation.value.result.Err? <==> !r.open)
      && (r.generation.value.result.Err? ==>
            && r.world.store == w.store.(messages := w.store.messages + [UserMessage(sessionId, msg, now)])
            && r.world.registry == Disconnect(w.registry, sessionId, ws)
            && r.broadcastText.None? && r.reached == [] && r.toSender == [])
  {
  }

  /** The user text is stored before the generator runs, so when the session
      holds fewer than `HistoryLimit` earlier messages, none of them later
      than now, the text is both the newest history turn and the content. */
  lemma WsUserTextIsNewestTurn(w: World, sessionId: string, ws: Conn, msg: string, consts: AppConstants,
                               oracle: (string, nat) -> Outcome, sendOk: Conn -> bool, now: int, l: string)
    requires sessionId in w.store.sessions
    requires Turn.RequestedSwitch(msg, consts).None?
    requires w.store.sessions[sessionId].language == Some(l)
    requires |MessagesOf(w.store.messages, sessionId)| < HistoryLimit
    requires forall x :: x in w.store.messages ==> x.timestamp <= now
    ensures var r := HandleWsMessage(w, sessionId, ws, msg, consts, true, oracle, sendOk, now);
      && r.generation.Some?
      && var g := r.generation.value;
      && |g.history| > 0 && g.history[|g.history| - 1] == HistoryTurn(UserRole, [msg])
      && g.content[0] == TextPart(msg)
  {
    var u := UserMessage(sessionId, msg, now);
    WsAsksGenerator(w, sessionId, ws, msg, consts, oracle, sendOk, now, l);
    var g := GenerateResponse(Ok(w.store.messages + [u]), sessionId, msg, None, Some(l), oracle);
    assert g.history == LoadChatHistory(w.store.messages + [u], sessionId);
    NewestIsLastTurn(w.store.messages, u);
  }

  /** Every step keeps the stored languages supported, every stored message
      attached to a stored session, and no session listed without sockets. */
  lemma WsKeepsInvariants(w: World, sessionId: string, ws: Conn, msg: string, consts: AppConstants,
                          aiAvailable: bool, oracle: (string, nat) -> Outcome,
                          sendOk: Conn -> bool, now: int)
    requires LanguagesSupported(w.store, consts.supportedLanguages)
    requires NoOrphanMessages(w.store)
    requires NoEmptyLists(w.registry)
    ensures var r := HandleWsMessage(w, sessionId, ws, msg, consts, aiAvailable, oracle, sendOk, now);
      && LanguagesSupported(r.world.store, consts.supportedLanguages)
      && NoOrphanMessages(r.world.store)
      && NoEmptyLists(r.world.registry)
  {
    if sessionId in w.store.sessions {
      var turn := Turn.DecideTurn(msg, w.store.sessions[sessionId].language, consts);
      var g := if turn.AskAi? && aiAvailable then
        Some(GenerateResponse(Ok(w.store.messages + [UserMessage(sessionId, msg, now)]), sessionId, msg, None, Some(turn.language), oracle))
      else None;
      TakeTurnKeepsInvariants(w, sessionId, ws, msg, turn, consts, g, sendOk, now);
    } else {
      RegistryKeepsNoEmptyLists(w.registry, sessionId, ws, sendOk);
    }
  }
}
