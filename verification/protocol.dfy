/** The agent's wire protocol: the `@callable` registry and RPC dispatch, the router for
    inbound WebSocket frames, and the frames `fetch` sends on a WebSocket upgrade. */
module Protocol {
  import opened Results
  import opened Text
  import opened Json
  import opened JsonCodec
  import opened PyValues
  import opened Kebab
  import opened Agent

  /** An RPC handler: the bound method called with the positional arguments. It sees and
      returns the agent's world, and returns a value or raises. */
  type Handler = (World, seq<Json>) -> Step<PyVal>

  /** A class attribute: `marked` is a truthy `_agent_callable`, `meta` the
      `_agent_callable_meta` dict. */
  datatype Method = Method(name: string, marked: bool, meta: Json, run: Handler)

  /** An agent class: its `__name__`, its `initial_state` and its methods. */
  datatype AgentClass = AgentClass(name: string, initial: PyVal, methods: seq<Method>)

  /** A frame received on a socket. */
  datatype Message = Text(text: string) | Binary(bytes: seq<bv8>)

  /** Where `webSocketMessage` sent a frame: handled by the protocol, or passed to
      `on_message` with the original payload. */
  datatype Routed = Handled | OnMessage(msg: Message)

  /** What `fetch` answers: a 101 upgrade, or a JSON body. */
  datatype Reply = Upgraded | Body(text: string)

  // ---------------------------------------------------------------- registry

  /** `@callable(description=..., streaming=...)` applied to a method. */
  function Callable(name: string, run: Handler, description: Json, streaming: bool): (m: Method)
    ensures m.name == name && m.marked
    ensures Field(m.meta, "description") == Some(description)
    ensures Field(m.meta, "streaming") == Some(Bool(streaming))
  {
    var ms := [Member("description", description), Member("streaming", Bool(streaming))];
    assert ms[1..] == [Member("streaming", Bool(streaming))];
    assert Lookup(ms[1..], "streaming") == Some(Bool(streaming));
    Method(name, true, Obj(ms), run)
  }

  /** Kept by `_get_callable_methods`: a public name with a truthy `_agent_callable`. */
  predicate IsRpcCallable(m: Method) {
    !StartsWith(m.name, "_") && m.marked
  }

  /** The position of the callable method called `name`, if the registry has one. A class
      has one attribute per name, so the first method with the name is the attribute
      `getattr` sees: a later one of the same name is shadowed. */
  function FindCallable(ms: seq<Method>, name: string): (r: Option<nat>)
    ensures r.Some? ==> r.value < |ms| && ms[r.value].name == name && IsRpcCallable(ms[r.value])
    ensures r.Some? ==> forall j :: 0 <= j < r.value ==> ms[j].name != name
    ensures r.None? ==> forall i :: 0 <= i < |ms| && ms[i].name == name && IsRpcCallable(ms[i]) ==>
                          exists j :: 0 <= j < i && ms[j].name == name
  {
    if ms == [] then None
    else if ms[0].name == name then (if IsRpcCallable(ms[0]) then Some(0) else None)
    else match FindCallable(ms[1..], name)
      case None => None
      case Some(i) => Some(i + 1)
  }

  /** The registry dispatches to the first callable method with the name. */
  lemma {:induction false} FindCallableAt(ms: seq<Method>, name: string, k: nat)
    requires k < |ms| && ms[k].name == name && IsRpcCallable(ms[k])
    requires forall i :: 0 <= i < k ==> ms[i].name != name
    ensures FindCallable(ms, name) == Some(k)
  {
    if k > 0 {
      assert ms[0].name != name;
      FindCallableAt(ms[1..], name, k - 1);
    }
  }

  /** The methods of `ms` have pairwise distinct names, as the attributes of a class do. */
  predicate DistinctNames(ms: seq<Method>) {
    forall i, j :: 0 <= i < j < |ms| ==> ms[i].name != ms[j].name
  }

  /** With distinct names, a name is dispatched exactly when a callable method has it. */
  lemma FindCallableDistinct(ms: seq<Method>, name: string)
    requires DistinctNames(ms)
    ensures FindCallable(ms, name).None? <==>
            forall i :: 0 <= i < |ms| ==> !(ms[i].name == name && IsRpcCallable(ms[i]))
  {
  }

  /** A name starting with `_` is never dispatched, whatever the registry holds. */
  lemma UnderscoreNeverCallable(ms: seq<Method>, name: string)
    requires StartsWith(name, "_")
    ensures FindCallable(ms, name) == None
  {
  }

  // ---------------------------------------------------------------- frames

  function RpcResult(id: Json, result: Json): Json {
    Obj([Member("type", Str(Rpc)), Member("id", id), Member("success", Bool(true)), Member("result", result)])
  }

  function RpcFailure(id: Json, error: string): Json {
    Obj([Member("type", Str(Rpc)), Member("id", id), Member("success", Bool(false)), Member("error", Str(error))])
  }

  function StateErrorFrame(error: string): Json {
    Obj([Member("type", Str(CfAgentStateError)), Member("error", Str(error))])
  }

  function IdentityFrame(name: string, agent: string): Json {
    Obj([Member("type", Str(CfAgentIdentity)), Member("name", Str(name)), Member("agent", Str(agent))])
  }

  lemma RpcResultWellFormed(id: Json, result: Json)
    requires WellFormed(id) && WellFormed(result)
    ensures WellFormed(RpcResult(id, result))
  {
    var ms := RpcResult(id, result).members;
    assert DistinctKeys(ms);
    assert forall i :: 0 <= i < |ms| ==> WellFormed(ms[i].value);
  }

  lemma RpcFailureWellFormed(id: Json, error: string)
    requires WellFormed(id)
    ensures WellFormed(RpcFailure(id, error))
  {
    var ms := RpcFailure(id, error).members;
    assert DistinctKeys(ms);
    assert forall i :: 0 <= i < |ms| ==> WellFormed(ms[i].value);
  }

  /** A client decoding a success reply gets the frame back, with the request's `id`
      unchanged. */
  lemma RpcResultDecodes(id: Json, result: Json)
    requires WellFormed(id) && WellFormed(result)
    ensures Loads(Dumps(RpcResult(id, result))) == Some(RpcResult(id, result))
    ensures Field(RpcResult(id, result), "id") == Some(id)
  {
    RpcResultWellFormed(id, result);
    LoadsDumps(RpcResult(id, result));
    SecondMember(RpcResult(id, result).members, "id", id);
  }

  /** A client decoding an error reply gets the frame back, with the request's `id`
      unchanged. */
  lemma RpcFailureDecodes(id: Json, error: string)
    requires WellFormed(id)
    ensures Loads(Dumps(RpcFailure(id, error))) == Some(RpcFailure(id, error))
    ensures Field(RpcFailure(id, error), "id") == Some(id)
  {
    RpcFailureWellFormed(id, error);
    LoadsDumps(RpcFailure(id, error));
    SecondMember(RpcFailure(id, error).members, "id", id);
  }

  /** The member after `type` in a frame is found by its key. */
  lemma SecondMember(ms: seq<Member>, k: string, v: Json)
    requires |ms| >= 2 && ms[0].key != k && ms[1] == Member(k, v)
    ensures Lookup(ms, k) == Some(v)
  {
    assert ms[1..][0] == Member(k, v);
  }

  // ---------------------------------------------------------------- rpc

  /** `method(*args)` spreads `args` into positional arguments, which needs an iterable. */
  function SplatArgs(cls: AgentClass, name: string, args: Json): (r: Result<seq<Json>>)
    ensures r.Ok? <==> Iterate(args).Ok?
    ensures r.Ok? ==> r == Iterate(args)
  {
    match Iterate(args)
    case Ok(xs) => Ok(xs)
    case Err(_) =>
      Err(cls.name + "." + name + "() argument after * must be an iterable, not " + TypeName(args))
  }

  /** The `try` body of `_handle_rpc`: call the handler, encode its result, send the reply. */
  function CallMethod(w: World, cls: AgentClass, m: Method, args: Json, ws: SocketId, id: Json): (r: Step<()>)
    ensures r.out.Ok? ==> ws !in r.w.broken && |r.w.sent| > 0 && r.w.sent[|r.w.sent| - 1].to == ws
    ensures SplatArgs(cls, m.name, args).Err? ==> r == Step(w, Err(SplatArgs(cls, m.name, args).error))
  {
    match SplatArgs(cls, m.name, args)
    case Err(e) => Step(w, Err(e))
    case Ok(argv) =>
      var call := m.run(w, argv);
      match call.out
      case Err(e) => Step(call.w, Err(e))
      case Ok(v) =>
        if v.Val? then Send(call.w, ws, Dumps(RpcResult(id, v.json)))
        else Step(call.w, Err(NotSerializable(v)))
  }

  /** `_handle_rpc(ws, parsed)`: `id`, `method` and `args` default to None, None and `[]`;
      a method that is not callable, or any exception in the call, is answered with an
      error reply; every reply goes to `ws` only. The membership test on the registry needs
      a hashable method name. So the only exceptions that leave it are an unhashable
      method name and a failed send of the reply. */
  function HandleRpc(w: World, cls: AgentClass, ws: SocketId, parsed: seq<Member>): (r: Step<()>)
    ensures r.out.Err? ==> !Hashable(GetOr(parsed, "method", Null)) || ws in r.w.broken
    ensures r.out.Ok? ==> |r.w.sent| > 0 && r.w.sent[|r.w.sent| - 1].to == ws
  {
    var id := GetOr(parsed, "id", Null);
    var callee := GetOr(parsed, "method", Null);
    var args := GetOr(parsed, "args", Arr([]));
    if !Hashable(callee) then Step(w, Err("unhashable type: '" + TypeName(callee) + "'"))
    else
      match (if callee.Str? then FindCallable(cls.methods, callee.s) else None)
      case None => Send(w, ws, Dumps(RpcFailure(id, "Method " + PyStr(callee) + " is not callable")))
      case Some(i) =>
        var attempt := CallMethod(w, cls, cls.methods[i], args, ws, id);
        if attempt.out.Ok? then attempt
        else Send(attempt.w, ws, Dumps(RpcFailure(id, attempt.out.error)))
  }

  /** A name that is missing, private or not marked gets exactly one error reply, sent to
      the caller, and nothing else happens. */
  lemma RpcNotCallable(w: World, cls: AgentClass, ws: SocketId, parsed: seq<Member>, name: string)
    requires GetOr(parsed, "method", Null) == Str(name)
    requires forall i :: 0 <= i < |cls.methods| ==> !(cls.methods[i].name == name && IsRpcCallable(cls.methods[i]))
    requires ws !in w.broken
    ensures HandleRpc(w, cls, ws, parsed)
         == Step(w.(sent := w.sent + [Sent(ws, Dumps(RpcFailure(GetOr(parsed, "id", Null),
                                                                 "Method " + name + " is not callable")))]), Ok(()))
  {
  }

  /** A handler that returns a JSON value: its effects, then one success reply to the caller
      carrying the request's `id` and the result. */
  lemma RpcSuccess(w: World, cls: AgentClass, ws: SocketId, parsed: seq<Member>, i: nat,
                   argv: seq<Json>, w1: World, result: Json)
    requires var callee := GetOr(parsed, "method", Null);
             callee.Str? && FindCallable(cls.methods, callee.s) == Some(i)
    requires i < |cls.methods|
    requires Iterate(GetOr(parsed, "args", Arr([]))) == Ok(argv)
    requires cls.methods[i].run(w, argv) == Step(w1, Ok(Val(result)))
    requires ws !in w1.broken
    ensures HandleRpc(w, cls, ws, parsed)
         == Step(w1.(sent := w1.sent + [Sent(ws, Dumps(RpcResult(GetOr(parsed, "id", Null), result)))]), Ok(()))
  {
  }

  /** A handler that raises: its effects up to the exception, then one error reply to the
      caller with `str(e)`. */
  lemma RpcHandlerRaises(w: World, cls: AgentClass, ws: SocketId, parsed: seq<Member>, i: nat,
                         argv: seq<Json>, w1: World, e: string)
    requires var callee := GetOr(parsed, "method", Null);
             callee.Str? && FindCallable(cls.methods, callee.s) == Some(i)
    requires i < |cls.methods|
    requires Iterate(GetOr(parsed, "args", Arr([]))) == Ok(argv)
    requires cls.methods[i].run(w, argv) == Step(w1, Err(e))
    requires ws !in w1.broken
    ensures HandleRpc(w, cls, ws, parsed)
         == Step(w1.(sent := w1.sent + [Sent(ws, Dumps(RpcFailure(GetOr(parsed, "id", Null), e)))]), Ok(()))
  {
  }

  // ---------------------------------------------------------------- inbound frames

  /** `webSocketMessage(ws, message)`. A frame passed to `on_message` is the frame received,
      and passing it on has no effect; only a frame that parses as JSON can raise. */
  function WebSocketMessage(w: World, cls: AgentClass, ws: SocketId, message: Message): (r: Step<Routed>)
    ensures r.out.Ok? && r.out.value.OnMessage? ==> r.out.value.msg == message && r.w == w
    ensures r.out.Err? ==> message.Text? && Loads(message.text).Some?
  {
    match message
    case Binary(_) => Step(w, Ok(OnMessage(message)))
    case Text(t) =>
      match Loads(t)
      case None => Step(w, Ok(OnMessage(message)))
      case Some(parsed) =>
        if !parsed.Obj? then Step(w, Err(NoAttribute(parsed, "get")))
        else
          var msgType := GetOr(parsed.members, "type", Null);
          if msgType == Str(CfAgentState) then
            var s := SetStateInternal(w, Val(GetOr(parsed.members, "state", Null)), Some(ws));
            if s.out.Ok? then Step(s.w, Ok(Handled))
            else
              var e := Send(s.w, ws, Dumps(StateErrorFrame(s.out.error)));
              if e.out.Err? then Step(e.w, Err(e.out.error)) else Step(e.w, Ok(Handled))
          else if msgType == Str(Rpc) then
            var h := HandleRpc(w, cls, ws, parsed.members);
            if h.out.Err? then Step(h.w, Err(h.out.error)) else Step(h.w, Ok(Handled))
          else Step(w, Ok(OnMessage(message)))
  }

  /** Binary frames, text that is not JSON, and objects whose `type` is missing or unknown
      reach `on_message` unchanged, and nothing else happens. */
  lemma NonProtocolFramesPassThrough(w: World, cls: AgentClass, ws: SocketId, message: Message)
    requires || message.Binary?
             || Loads(message.text).None?
             || (Loads(message.text).value.Obj?
                 && GetOr(Loads(message.text).value.members, "type", Null) != Str(CfAgentState)
                 && GetOr(Loads(message.text).value.members, "type", Null) != Str(Rpc))
    ensures WebSocketMessage(w, cls, ws, message) == Step(w, Ok(OnMessage(message)))
  {
  }

  /** JSON text that is not an object makes `parsed.get` raise. */
  lemma NonObjectRaises(w: World, cls: AgentClass, ws: SocketId, t: string, j: Json)
    requires Loads(t) == Some(j) && !j.Obj?
    ensures WebSocketMessage(w, cls, ws, Text(t)) == Step(w, Err(NoAttribute(j, "get")))
  {
  }

  /** A client's state frame is stored (a missing `state` as null) and echoed to every
      other socket, never back to the sender. */
  lemma ClientStateExcludesSender(w: World, cls: AgentClass, ws: SocketId, t: string, ms: seq<Member>)
    requires Loads(t) == Some(Obj(ms)) && GetOr(ms, "type", Null) == Str(CfAgentState)
    requires forall x :: x in w.sockets ==> x !in w.broken
    ensures var st := GetOr(ms, "state", Null);
            var r := WebSocketMessage(w, cls, ws, Text(t));
            && r.out == Ok(Handled)
            && r.w.store == Persisted(w.store, Dumps(st))
            && r.w.sent == w.sent + Deliveries(Recipients(w.sockets, Some(ws)), Dumps(StateFrame(st)))
            && Sent(ws, Dumps(StateFrame(st))) !in r.w.sent[|w.sent|..]
  {
    var st := GetOr(ms, "state", Null);
    BroadcastAll(w.(cache := Val(st), store := Persisted(w.store, Dumps(st))), w.sockets, Some(ws), Dumps(StateFrame(st)));
    var r := WebSocketMessage(w, cls, ws, Text(t));
    var rs := Recipients(w.sockets, Some(ws));
    assert r.w.sent[|w.sent|..] == Deliveries(rs, Dumps(StateFrame(st)));
    assert ws !in rs;
  }

  /** When the echo fails, the sender alone gets one `cf_agent_state_error` frame with the
      exception's text, after the frames the echo did send. */
  lemma ClientStateErrorToSender(w: World, cls: AgentClass, ws: SocketId, t: string, ms: seq<Member>)
    requires Loads(t) == Some(Obj(ms)) && GetOr(ms, "type", Null) == Str(CfAgentState)
    requires ws !in w.broken
    requires var rs := Recipients(w.sockets, Some(ws)); FirstBroken(rs, w.broken) < |rs|
    ensures var st := GetOr(ms, "state", Null);
            var rs := Recipients(w.sockets, Some(ws));
            var k := FirstBroken(rs, w.broken);
            var r := WebSocketMessage(w, cls, ws, Text(t));
            && r.out == Ok(Handled)
            && r.w.sent == w.sent + Deliveries(rs[..k], Dumps(StateFrame(st)))
                           + [Sent(ws, Dumps(StateErrorFrame(w.broken[rs[k]])))]
  {
  }

  // ---------------------------------------------------------------- fetch

  /** The lower-case form of one character, as far as a comparison with ASCII text can
      tell: Python's `str.lower` maps the Kelvin sign to `k`, and no other non-ASCII
      character to a single ASCII letter. */
  function HeaderLower(c: char): char {
    if c == '\U{212a}' then 'k' else LowerChar(c)
  }

  /** `upgrade and upgrade.lower() == "websocket"`: an ASCII spelling of `websocket`, or
      one with the Kelvin sign for a `k`. */
  predicate IsWebSocketUpgrade(upgrade: Option<string>)
    ensures IsWebSocketUpgrade(upgrade) ==>
              upgrade.Some? && (Lower(upgrade.value) == "websocket" || '\U{212a}' in upgrade.value)
  {
    && upgrade.Some? && upgrade.value != ""
    && |upgrade.value| == |"websocket"|
    && forall i :: 0 <= i < |upgrade.value| ==> HeaderLower(upgrade.value[i]) == "websocket"[i]
  }

  /** Any ASCII spelling of `websocket` asks for an upgrade. */
  lemma UpgradeAnyCase(u: string)
    requires Lower(u) == "websocket"
    ensures IsWebSocketUpgrade(Some(u))
  {
    assert |u| == 9;
    forall i | 0 <= i < |u|
      ensures HeaderLower(u[i]) == "websocket"[i]
    {
      assert Lower(u)[i] == LowerChar(u[i]);
    }
  }

  /** `fetch(request)`: an upgrade accepts `server`, sends it the identity frame, reads the
      state and, unless it is None, sends it the state; any other request gets
      `{"agent": ..., "state": ...}` as its body. */
  function Fetch(w: World, cls: AgentClass, upgrade: Option<string>, server: SocketId, idName: string): (r: Step<Reply>)
    ensures IsWebSocketUpgrade(upgrade) ==> r.w.sockets == w.sockets + [server]
    ensures !IsWebSocketUpgrade(upgrade) ==> r.w.sockets == w.sockets
    ensures r.out.Ok? ==> (r.out.value == Upgraded <==> IsWebSocketUpgrade(upgrade))
  {
    var agent := CamelToKebab(cls.name);
    if IsWebSocketUpgrade(upgrade) then
      var w1 := w.(sockets := w.sockets + [server]);
      var s1 := Send(w1, server, Dumps(IdentityFrame(idName, agent)));
      if s1.out.Err? then Step(s1.w, Err(s1.out.error))
      else SendInitialState(s1.w, cls.initial, server)
    else
      var g := GetState(w, cls.initial);
      if g.out.Err? then Step(g.w, Err(g.out.error))
      else if g.out.value.Val? then
        Step(g.w, Ok(Body(Dumps(Obj([Member("agent", Str(agent)), Member("state", g.out.value.json)])))))
      else Step(g.w, Err(NotSerializable(g.out.value)))
  }

  /** The upgrade's second step: read the state (which may store and broadcast the initial
      state) and, unless it is `None`, send it to the new socket as a state frame. */
  function SendInitialState(w: World, initial: PyVal, server: SocketId): (r: Step<Reply>)
    ensures r.w.sockets == w.sockets && w.sent <= r.w.sent
  {
    GetStateAppends(w, initial);
    var g := GetState(w, initial);
    if g.out.Err? then Step(g.w, Err(g.out.error))
    else if g.out.value == Val(Null) then Step(g.w, Ok(Upgraded))
    else
      match StateText(g.out.value)
      case Err(e) => Step(g.w, Err(e))
      case Ok(text) =>
        var s2 := Send(g.w, server, text);
        if s2.out.Err? then Step(s2.w, Err(s2.out.error)) else Step(s2.w, Ok(Upgraded))
  }

  /** On an upgrade the server socket is accepted before anything is sent, and the first
      frame sent is the identity frame, naming the instance and the kebab-case class. */
  lemma UpgradeIdentityFirst(w: World, cls: AgentClass, upgrade: Option<string>, server: SocketId, idName: string)
    requires IsWebSocketUpgrade(upgrade) && server !in w.broken
    ensures var r := Fetch(w, cls, upgrade, server, idName);
            && r.w.sockets == w.sockets + [server]
            && |r.w.sent| > |w.sent|
            && r.w.sent[|w.sent|] == Sent(server, Dumps(IdentityFrame(idName, CamelToKebab(cls.name))))
  {
    var identity := Sent(server, Dumps(IdentityFrame(idName, CamelToKebab(cls.name))));
    var w1 := w.(sockets := w.sockets + [server], sent := w.sent + [identity]);
    assert Fetch(w, cls, upgrade, server, idName) == SendInitialState(w1, cls.initial, server);
  }

  /** How many frames of `xs` are `x`. */
  function Occurrences(xs: seq<Sent>, x: Sent): (n: nat)
    ensures n <= |xs|
  {
    if xs == [] then 0 else (if xs[0] == x then 1 else 0) + Occurrences(xs[1..], x)
  }

  lemma {:induction false} OccurrencesAppend(a: seq<Sent>, b: seq<Sent>, x: Sent)
    ensures Occurrences(a + b, x) == Occurrences(a, x) + Occurrences(b, x)
  {
    if a == [] {
      assert a + b == b;
    } else {
      assert (a + b)[1..] == a[1..] + b;
      OccurrencesAppend(a[1..], b, x);
    }
  }

  /** A broadcast reaches a socket once for each time it is listed. */
  lemma {:induction false} DeliveriesToFresh(socks: seq<SocketId>, server: SocketId, text: string)
    requires server !in socks
    ensures Occurrences(Deliveries(socks + [server], text), Sent(server, text)) == 1
  {
    if socks == [] {
      assert socks + [server] == [server];
    } else {
      assert (socks + [server])[1..] == socks[1..] + [server];
      DeliveriesToFresh(socks[1..], server, text);
    }
  }

  /** The first connection to an agent that has never stored a state, with an initial
      state that is not None: the getter persists it and broadcasts it to every socket,
      the new one included, and then `fetch` sends it to the new socket directly. */
  lemma FirstUpgradeSends(w: World, cls: AgentClass, upgrade: Option<string>, server: SocketId, idName: string, j: Json)
    requires IsWebSocketUpgrade(upgrade) && cls.initial == Val(j) && j != Null
    requires w.cache == Unset && StateWasChanged !in w.store
    requires forall x :: x in w.sockets + [server] ==> x !in w.broken
    ensures var r := Fetch(w, cls, upgrade, server, idName);
            && r.out == Ok(Upgraded)
            && r.w.sent == w.sent + [Sent(server, Dumps(IdentityFrame(idName, CamelToKebab(cls.name))))]
                           + Deliveries(w.sockets + [server], Dumps(StateFrame(j)))
                           + [Sent(server, Dumps(StateFrame(j)))]
  {
    var identity := Sent(server, Dumps(IdentityFrame(idName, CamelToKebab(cls.name))));
    var w1 := w.(sockets := w.sockets + [server], sent := w.sent + [identity]);
    assert Fetch(w, cls, upgrade, server, idName) == SendInitialState(w1, cls.initial, server);
    FreshStateSent(w1, j, server);
  }

  /** On a fresh agent the initial state is stored, broadcast to every socket, and then sent
      once more to the new one. */
  lemma FreshStateSent(w: World, j: Json, server: SocketId)
    requires w.cache == Unset && StateWasChanged !in w.store && j != Null
    requires forall x :: x in w.sockets ==> x !in w.broken
    requires server in w.sockets
    ensures var r := SendInitialState(w, Val(j), server);
            && r.out == Ok(Upgraded)
            && r.w.sent == w.sent + Deliveries(w.sockets, Dumps(StateFrame(j))) + [Sent(server, Dumps(StateFrame(j)))]
  {
    GetStateFreshInitial(w, j);
  }

  /** So a new socket that was not yet connected receives the same state frame twice. */
  lemma FirstUpgradeStateTwice(w: World, cls: AgentClass, upgrade: Option<string>, server: SocketId, idName: string, j: Json)
    requires IsWebSocketUpgrade(upgrade) && cls.initial == Val(j) && j != Null && WellFormed(j)
    requires w.cache == Unset && StateWasChanged !in w.store
    requires server !in w.sockets
    requires forall x :: x in w.sockets + [server] ==> x !in w.broken
    ensures var r := Fetch(w, cls, upgrade, server, idName);
            Occurrences(r.w.sent[|w.sent|..], Sent(server, Dumps(StateFrame(j)))) == 2
  {
    var identity := Sent(server, Dumps(IdentityFrame(idName, CamelToKebab(cls.name))));
    var frame := Sent(server, Dumps(StateFrame(j)));
    var d := Deliveries(w.sockets + [server], Dumps(StateFrame(j)));
    FirstUpgradeSends(w, cls, upgrade, server, idName, j);
    DeliveriesToFresh(w.sockets, server, Dumps(StateFrame(j)));
    FramesDiffer(idName, CamelToKebab(cls.name), j);
    TwiceAfter(w.sent, identity, d, frame);
  }

  /** What follows `pre` in `pre + [x] + d + [y]` holds `y` twice when `x` is not `y` and
      `d` holds it once. */
  lemma TwiceAfter(pre: seq<Sent>, x: Sent, d: seq<Sent>, y: Sent)
    requires x != y && Occurrences(d, y) == 1
    ensures Occurrences((pre + [x] + d + [y])[|pre|..], y) == 2
  {
    assert (pre + [x] + d + [y])[|pre|..] == [x] + d + [y];
    OccurrencesAppend([x] + d, [y], y);
    OccurrencesAppend([x], d, y);
  }

  /** The identity frame and a state frame never have the same text. */
  lemma FramesDiffer(name: string, agent: string, j: Json)
    requires WellFormed(j)
    ensures Dumps(IdentityFrame(name, agent)) != Dumps(StateFrame(j))
  {
    var a := IdentityFrame(name, agent);
    var b := StateFrame(j);
    assert WellFormed(a) by {
      assert DistinctKeys(a.members);
      assert forall i :: 0 <= i < |a.members| ==> WellFormed(a.members[i].value);
    }
    assert WellFormed(b) by {
      assert DistinctKeys(b.members);
      assert forall i :: 0 <= i < |b.members| ==> WellFormed(b.members[i].value);
    }
    if Dumps(a) == Dumps(b) {
      DumpsInjective(a, b);
      assert false;
    }
  }

  /** When the state resolves to None no state frame follows the identity frame. */
  lemma UpgradeNoneStateOnlyIdentity(w: World, cls: AgentClass, upgrade: Option<string>, server: SocketId, idName: string)
    requires IsWebSocketUpgrade(upgrade) && cls.initial == Unset
    requires w.cache == Unset && StateWasChanged !in w.store && server !in w.broken
    ensures Fetch(w, cls, upgrade, server, idName)
         == Step(w.(sockets := w.sockets + [server],
                    sent := w.sent + [Sent(server, Dumps(IdentityFrame(idName, CamelToKebab(cls.name))))]), Ok(Upgraded))
  {
  }

  /** A plain request is answered with the kebab-case class name and the state, as a JSON
      object a client decodes back. */
  lemma PlainRequestBody(w: World, cls: AgentClass, upgrade: Option<string>, server: SocketId, idName: string)
    requires !IsWebSocketUpgrade(upgrade)
    requires var g := GetState(w, cls.initial); g.out.Ok? && g.out.value.Val? && WellFormed(g.out.value.json)
    ensures var g := GetState(w, cls.initial);
            var body := Obj([Member("agent", Str(CamelToKebab(cls.name))), Member("state", g.out.value.json)]);
            var r := Fetch(w, cls, upgrade, server, idName);
            && r == Step(g.w, Ok(Body(Dumps(body))))
            && Loads(r.out.value.text) == Some(body)
  {
    var g := GetState(w, cls.initial);
    var body := Obj([Member("agent", Str(CamelToKebab(cls.name))), Member("state", g.out.value.json)]);
    assert DistinctKeys(body.members);
    assert forall i :: 0 <= i < |body.members| ==> WellFormed(body.members[i].value);
    LoadsDumps(body);
  }
}
