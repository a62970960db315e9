/** The agent's state store and broadcast. An agent instance is a `World`: its storage table
    (row id to stored text), the in-memory `_state` cache, the sockets the runtime reports,
    and the frames sent so far. Every operation is a transition from one world to the next,
    returning either a value or the exception it raised; an exception does not undo the
    writes and sends made before it. */
module Agent {
  import opened Results
  import opened Text
  import opened Json
  import opened JsonCodec
  import opened Seqs

  const StateRowId := "cf_state_row_id"
  const StateWasChanged := "cf_state_was_changed"
  const CfAgentState := "cf_agent_state"
  const CfAgentStateError := "cf_agent_state_error"
  const CfAgentIdentity := "cf_agent_identity"
  const Rpc := "rpc"

  type SocketId = nat

  /** A Python value held as agent state: the `_UNSET` sentinel, a JSON-encodable value, or
      an object of some other class, which `json.dumps` rejects. */
  datatype PyVal = Unset | Val(json: Json) | Foreign(typeName: string)

  /** One text frame handed to `ws.send`. */
  datatype Sent = Sent(to: SocketId, text: string)

  /** `broken` lists the sockets whose `send` raises, with the text of that exception. */
  datatype World = World(
    store: map<string, string>,
    cache: PyVal,
    sockets: seq<SocketId>,
    broken: map<SocketId, string>,
    sent: seq<Sent>)

  /** The world after a call, and what the call returned or raised. */
  datatype Step<+T> = Step(w: World, out: Result<T>)

  /** The message `json.dumps` raises for an object it cannot encode. */
  function NotSerializable(v: PyVal): string {
    "Object of type " + (if v.Foreign? then v.typeName else "object") + " is not JSON serializable"
  }

  /** `json.dumps(v)`. */
  function DumpsVal(v: PyVal): (r: Result<string>)
    ensures r.Ok? <==> v.Val?
    ensures r.Err? ==> r.error == NotSerializable(v)
  {
    if v.Val? then Ok(Dumps(v.json)) else Err(NotSerializable(v))
  }

  /** `ws.send(text)`. */
  function Send(w: World, to: SocketId, text: string): (r: Step<()>)
    ensures to in w.broken ==> r == Step(w, Err(w.broken[to]))
    ensures to !in w.broken ==> r == Step(w.(sent := w.sent + [Sent(to, text)]), Ok(()))
  {
    if to in w.broken then Step(w, Err(w.broken[to]))
    else Step(w.(sent := w.sent + [Sent(to, text)]), Ok(()))
  }

  // ---------------------------------------------------------------- broadcast

  /** `rs` takes the entries of `socks` at the strictly increasing positions `idx`. */
  predicate Picks(idx: seq<int>, rs: seq<SocketId>, socks: seq<SocketId>) {
    && |idx| == |rs|
    && (forall j :: 0 <= j < |idx| ==> 0 <= idx[j] < |socks| && rs[j] == socks[idx[j]])
    && (forall j, k :: 0 <= j < k < |idx| ==> idx[j] < idx[k])
  }

  /** The sockets a broadcast addresses: all of them, in order, except `source`. */
  function Recipients(socks: seq<SocketId>, source: Option<SocketId>): (rs: seq<SocketId>)
    ensures forall x :: x in rs <==> x in socks && source != Some(x)
    ensures source.None? ==> rs == socks
  {
    if socks == [] then []
    else (if source == Some(socks[0]) then [] else [socks[0]]) + Recipients(socks[1..], source)
  }

  /** Each socket other than `source` is addressed exactly as often as `getWebSockets()`
      lists it, and `source` never. */
  lemma {:induction false} RecipientsCount(socks: seq<SocketId>, source: Option<SocketId>)
    ensures var rs := Recipients(socks, source);
            forall x :: multiset(rs)[x] == if source == Some(x) then 0 else multiset(socks)[x]
  {
    if socks != [] {
      RecipientsCount(socks[1..], source);
      var rest := Recipients(socks[1..], source);
      var tail := multiset(socks[1..]);
      assert multiset(socks) == multiset([socks[0]]) + tail by {
        assert socks == [socks[0]] + socks[1..];
      }
      if source == Some(socks[0]) {
        assert Recipients(socks, source) == rest;
      } else {
        assert Recipients(socks, source) == [socks[0]] + rest;
        assert multiset(Recipients(socks, source)) == multiset([socks[0]]) + multiset(rest);
      }
    }
  }

  /** The recipients keep the `getWebSockets()` order: they are the entries of the socket
      list at strictly increasing positions. */
  lemma {:induction false} RecipientsInOrder(socks: seq<SocketId>, source: Option<SocketId>)
    ensures exists idx :: Picks(idx, Recipients(socks, source), socks)
  {
    if socks == [] {
      assert Picks([], Recipients(socks, source), socks);
    } else {
      RecipientsInOrder(socks[1..], source);
      var rest := Recipients(socks[1..], source);
      var head := if source == Some(socks[0]) then [] else [socks[0]];
      assert Recipients(socks, source) == head + rest;
      PicksCons(socks, head, rest);
    }
  }

  /** Positions picked from the tail of `socks`, shifted by one, are picked from `socks`;
      the head may be taken in front of them. */
  lemma PicksCons(socks: seq<SocketId>, head: seq<SocketId>, rest: seq<SocketId>)
    requires socks != [] && (head == [] || head == [socks[0]])
    requires exists idx :: Picks(idx, rest, socks[1..])
    ensures exists idx :: Picks(idx, head + rest, socks)
  {
    var idx :| Picks(idx, rest, socks[1..]);
    var shifted := seq(|idx|, j requires 0 <= j < |idx| => idx[j] + 1);
    if head == [] {
      assert Picks(shifted, head + rest, socks);
    } else {
      assert Picks([0] + shifted, head + rest, socks);
    }
  }

  /** Index of the first broken socket of `rs`, or `|rs|`. */
  function FirstBroken(rs: seq<SocketId>, broken: map<SocketId, string>): (k: nat)
    ensures k <= |rs|
    ensures forall i :: 0 <= i < k ==> rs[i] !in broken
    ensures k < |rs| ==> rs[k] in broken
  {
    if rs == [] || rs[0] in broken then 0 else 1 + FirstBroken(rs[1..], broken)
  }

  /** One frame with `text` to each socket of `rs`, in order. */
  function Deliveries(rs: seq<SocketId>, text: string): (r: seq<Sent>)
    ensures |r| == |rs|
    ensures forall i :: 0 <= i < |rs| ==> r[i] == Sent(rs[i], text)
  {
    if rs == [] then [] else [Sent(rs[0], text)] + Deliveries(rs[1..], text)
  }

  /** The loop of `_set_state_internal` over `getWebSockets()`: each socket other than
      `source` is sent `text` once, in order, until a send raises; that exception ends the
      loop and propagates. Nothing but the sent frames changes. */
  function Broadcast(w: World, socks: seq<SocketId>, source: Option<SocketId>, text: string): (r: Step<()>)
    ensures r.w == w.(sent := r.w.sent)
    ensures var rs := Recipients(socks, source);
            var k := FirstBroken(rs, w.broken);
            && r.w.sent == w.sent + Deliveries(rs[..k], text)
            && r.out == (if k == |rs| then Ok(()) else Err(w.broken[rs[k]]))
    decreases |socks|
  {
    if socks == [] then Step(w, Ok(()))
    else if source == Some(socks[0]) then
      assert Recipients(socks, source) == Recipients(socks[1..], source);
      Broadcast(w, socks[1..], source, text)
    else
      var s := Send(w, socks[0], text);
      if s.out.Err? then Step(s.w, Err(s.out.error))
      else
        var r := Broadcast(s.w, socks[1..], source, text);
        BroadcastStep(w, socks, source, text, r.w.sent);
        r
  }

  /** How one delivered frame composes with the rest of the broadcast. */
  lemma BroadcastStep(w: World, socks: seq<SocketId>, source: Option<SocketId>, text: string, tail: seq<Sent>)
    requires socks != [] && source != Some(socks[0]) && socks[0] !in w.broken
    requires var rs1 := Recipients(socks[1..], source);
             tail == w.sent + [Sent(socks[0], text)] + Deliveries(rs1[..FirstBroken(rs1, w.broken)], text)
    ensures var rs := Recipients(socks, source);
            tail == w.sent + Deliveries(rs[..FirstBroken(rs, w.broken)], text)
  {
    var rs1 := Recipients(socks[1..], source);
    var k1 := FirstBroken(rs1, w.broken);
    assert Recipients(socks, source) == [socks[0]] + rs1;
    DeliverFirst(socks[0], rs1, w.broken, text);
    Assoc2(w.sent, [Sent(socks[0], text)], Deliveries(rs1[..k1], text));
  }

  lemma DeliverFirst(x: SocketId, rs1: seq<SocketId>, broken: map<SocketId, string>, text: string)
    requires x !in broken
    ensures var rs := [x] + rs1;
            Deliveries(rs[..FirstBroken(rs, broken)], text)
              == [Sent(x, text)] + Deliveries(rs1[..FirstBroken(rs1, broken)], text)
  {
    var rs := [x] + rs1;
    assert rs[1..] == rs1;
    var k1 := FirstBroken(rs1, broken);
    assert FirstBroken(rs, broken) == 1 + k1;
    assert rs[..1 + k1][1..] == rs1[..k1];
  }

  /** With no broken socket, every recipient gets exactly one frame. */
  lemma BroadcastAll(w: World, socks: seq<SocketId>, source: Option<SocketId>, text: string)
    requires forall x :: x in socks ==> x !in w.broken
    ensures var r := Broadcast(w, socks, source, text);
            && r.out == Ok(())
            && r.w == w.(sent := w.sent + Deliveries(Recipients(socks, source), text))
  {
    var rs := Recipients(socks, source);
    assert FirstBroken(rs, w.broken) == |rs|;
    assert rs[..|rs|] == rs;
  }

  // ---------------------------------------------------------------- state store

  /** `{"type": "cf_agent_state", "state": state}`. */
  function StateFrame(state: Json): Json {
    Obj([Member("type", Str(CfAgentState)), Member("state", state)])
  }

  /** `json.dumps({"type": "cf_agent_state", "state": v})`. */
  function StateText(v: PyVal): (r: Result<string>)
    ensures r.Ok? <==> v.Val?
    ensures r.Err? ==> r.error == NotSerializable(v)
  {
    if v.Val? then Ok(Dumps(StateFrame(v.json))) else Err(NotSerializable(v))
  }

  /** The two rows a successful write leaves: the encoded state and the `"true"` marker. */
  function Persisted(store: map<string, string>, text: string): map<string, string> {
    store[StateRowId := text][StateWasChanged := Dumps(Bool(true))]
  }

  /** `_set_state_internal(state, source_ws)`: the cache is assigned first, so it changes
      even when encoding fails; a failed encoding leaves the table and the sockets alone;
      otherwise both rows are written and every socket but `source` is sent the state. */
  function SetStateInternal(w: World, v: PyVal, source: Option<SocketId>): (r: Step<()>)
    ensures r.w.cache == v
    ensures r.w.sockets == w.sockets && r.w.broken == w.broken
    ensures !v.Val? ==> r == Step(w.(cache := v), Err(NotSerializable(v)))
    ensures v.Val? ==> r.w.store == Persisted(w.store, Dumps(v.json))
    ensures v.Val? ==>
              var rs := Recipients(w.sockets, source);
              var k := FirstBroken(rs, w.broken);
              && r.w.sent == w.sent + Deliveries(rs[..k], Dumps(StateFrame(v.json)))
              && r.out == (if k == |rs| then Ok(()) else Err(w.broken[rs[k]]))
  {
    var w1 := w.(cache := v);
    match DumpsVal(v)
    case Err(e) => Step(w1, Err(e))
    case Ok(stateJson) =>
      var w2 := w1.(store := Persisted(w1.store, stateJson));
      match StateText(v)
      case Err(e) => Step(w2, Err(e))
      case Ok(msg) => Broadcast(w2, w2.sockets, source, msg)
  }

  /** `set_state(state)`: no socket is excluded. */
  function SetState(w: World, v: PyVal): (r: Step<()>)
    ensures r.w.cache == v && r.w.sockets == w.sockets && r.w.broken == w.broken
    ensures v.Val? && (forall x :: x in w.sockets ==> x !in w.broken) ==>
              r == Step(w.(cache := v, store := Persisted(w.store, Dumps(v.json)),
                           sent := w.sent + Deliveries(w.sockets, Dumps(StateFrame(v.json)))), Ok(()))
  {
    var r := SetStateInternal(w, v, None);
    if v.Val? && (forall x :: x in w.sockets ==> x !in w.broken) then
      BroadcastAll(w, w.sockets, None, Dumps(StateFrame(v.json)));
      r
    else r
  }

  /** The `state` property: a cached value wins; otherwise the marker row decides whether
      the table or `initial_state` is consulted. */
  function GetState(w: World, initial: PyVal): (r: Step<PyVal>)
    ensures r.w.sockets == w.sockets && r.w.broken == w.broken
  {
    if w.cache != Unset then Step(w, Ok(w.cache))
    else if StateWasChanged in w.store then
      if StateRowId in w.store then
        match Loads(w.store[StateRowId])
        case Some(j) => Step(w.(cache := Val(j)), Ok(Val(j)))
        case None =>
          if initial != Unset then
            var s := SetStateInternal(w.(cache := initial), initial, None);
            if s.out.Err? then Step(s.w, Err(s.out.error)) else Step(s.w, Ok(s.w.cache))
          else Step(w.(store := w.store - {StateRowId} - {StateWasChanged}), Ok(Val(Null)))
      else Step(w, Ok(w.cache))
    else if initial == Unset then Step(w, Ok(Val(Null)))
    else
      var s := SetStateInternal(w, initial, None);
      if s.out.Err? then Step(s.w, Err(s.out.error)) else Step(s.w, Ok(initial))
  }

  // ---------------------------------------------------------------- getter cases

  /** Reading the state only ever adds frames after those already sent. */
  lemma GetStateAppends(w: World, initial: PyVal)
    ensures w.sent <= GetState(w, initial).w.sent
  {
    if w.cache == Unset && StateWasChanged in w.store && StateRowId in w.store
       && Loads(w.store[StateRowId]).None? && initial != Unset {
      var s := SetStateInternal(w.(cache := initial), initial, None);
      assert w.sent <= s.w.sent;
    } else if w.cache == Unset && StateWasChanged !in w.store && initial != Unset {
      var s := SetStateInternal(w, initial, None);
      assert w.sent <= s.w.sent;
    }
  }

  /** A value already cached is returned without reading or writing the table. */
  lemma GetStateCached(w: World, initial: PyVal)
    requires w.cache != Unset
    ensures GetState(w, initial) == Step(w, Ok(w.cache))
  {
  }

  /** Never persisted and no `initial_state`: None, and nothing is written or sent. */
  lemma GetStateFreshNoInitial(w: World)
    requires w.cache == Unset && StateWasChanged !in w.store
    ensures GetState(w, Unset) == Step(w, Ok(Val(Null)))
  {
  }

  /** Never persisted, with an `initial_state`: both rows are written, every socket gets the
      state once, and the initial state is returned. */
  lemma GetStateFreshInitial(w: World, j: Json)
    requires w.cache == Unset && StateWasChanged !in w.store
    requires forall x :: x in w.sockets ==> x !in w.broken
    ensures GetState(w, Val(j))
         == Step(w.(cache := Val(j), store := Persisted(w.store, Dumps(j)),
                    sent := w.sent + Deliveries(w.sockets, Dumps(StateFrame(j)))), Ok(Val(j)))
  {
    BroadcastAll(w.(cache := Val(j), store := Persisted(w.store, Dumps(j))), w.sockets, None, Dumps(StateFrame(j)));
  }

  /** A parseable row is returned and cached; the table is not written. */
  lemma GetStateParsed(w: World, initial: PyVal, j: Json)
    requires w.cache == Unset && StateWasChanged in w.store && StateRowId in w.store
    requires Loads(w.store[StateRowId]) == Some(j)
    ensures GetState(w, initial) == Step(w.(cache := Val(j)), Ok(Val(j)))
  {
  }

  /** An unparseable row with no `initial_state`: both rows are deleted and None returned. */
  lemma GetStateCorruptNoInitial(w: World)
    requires w.cache == Unset && StateWasChanged in w.store && StateRowId in w.store
    requires Loads(w.store[StateRowId]) == None
    ensures var r := GetState(w, Unset);
            && r == Step(w.(store := w.store - {StateRowId} - {StateWasChanged}), Ok(Val(Null)))
            && StateRowId !in r.w.store && StateWasChanged !in r.w.store
  {
  }

  /** An unparseable row with an `initial_state`: the initial state is persisted again,
      broadcast, and returned. */
  lemma GetStateCorruptInitial(w: World, j: Json)
    requires w.cache == Unset && StateWasChanged in w.store && StateRowId in w.store
    requires Loads(w.store[StateRowId]) == None
    requires forall x :: x in w.sockets ==> x !in w.broken
    ensures GetState(w, Val(j))
         == Step(w.(cache := Val(j), store := Persisted(w.store, Dumps(j)),
                    sent := w.sent + Deliveries(w.sockets, Dumps(StateFrame(j)))), Ok(Val(j)))
  {
    BroadcastAll(w.(cache := Val(j), store := Persisted(w.store, Dumps(j))), w.sockets, None, Dumps(StateFrame(j)));
  }

  /** The marker without the state row: the getter returns the `_UNSET` sentinel itself. */
  lemma GetStateRowMissing(w: World, initial: PyVal)
    requires w.cache == Unset && StateWasChanged in w.store && StateRowId !in w.store
    ensures GetState(w, initial) == Step(w, Ok(Unset))
  {
  }

  /** Reading the state a second time returns the same value and changes nothing: every
      branch that returns either caches its result or leaves the table in a shape that
      leads back to the same branch. */
  lemma GetStateStable(w: World, initial: PyVal)
    requires GetState(w, initial).out.Ok?
    ensures var r := GetState(w, initial);
            GetState(r.w, initial) == Step(r.w, r.out)
  {
  }

  /** What `set_state` writes is what a fresh instance reads back: with the cache dropped,
      as after a restart, the getter parses the stored row into the same value, whatever
      the broadcast did. */
  lemma RestartRoundTrip(w: World, j: Json, initial: PyVal)
    requires WellFormed(j)
    ensures var s := SetState(w, Val(j));
            GetState(s.w.(cache := Unset), initial) == Step(s.w.(cache := Val(j)), Ok(Val(j)))
  {
    var s := SetState(w, Val(j));
    var w1 := s.w.(cache := Unset);
    assert w1.store[StateRowId] == Dumps(j);
    LoadsDumps(j);
    GetStateParsed(w1, initial, j);
  }

  /** Writing the state it already holds leaves the table as it was. */
  lemma RewriteSameState(w: World, j: Json, source1: Option<SocketId>, source2: Option<SocketId>)
    ensures var s1 := SetStateInternal(w, Val(j), source1);
            SetStateInternal(s1.w, Val(j), source2).w.store == s1.w.store
  {
    var m := Persisted(w.store, Dumps(j));
    assert Persisted(m, Dumps(j)) == m;
  }

  /** A value `json.dumps` rejects is still cached, so the getter serves a state that was
      never stored or broadcast. */
  lemma UnpersistedStateServed(w: World, v: PyVal, initial: PyVal)
    requires v != Unset && !v.Val?
    ensures var s := SetStateInternal(w, v, None);
            && s.out.Err? && s.w.store == w.store && s.w.sent == w.sent
            && GetState(s.w, initial) == Step(s.w, Ok(v))
  {
  }
}
