# Python agent and OpenAPI flattener — a Dafny model

This project models two small Python programs and proves properties of the model.

The first is a Python base class for Cloudflare Durable Object "agents" that speaks the
Agents SDK wire protocol, together with its example `CounterAgent` and the worker entry
point that routes to it. The model covers:

- the kebab-case class name;
- the `@callable` marker and the registry of callable methods;
- the `state` property, with its in-memory cache, its two storage rows
  (`cf_state_row_id` and `cf_state_was_changed`) and its recovery from a corrupt row;
- `set_state`, which persists the state and broadcasts a `cf_agent_state` frame to every
  socket except the sender;
- the frames `fetch` sends on a WebSocket upgrade, and the JSON body it returns otherwise;
- the router for inbound frames (`cf_agent_state`, `rpc`, anything else);
- RPC dispatch with its success and error replies;
- the counter's four RPC methods;
- the path routing of `Default.fetch`.

An agent instance is a `World`: its storage table, its `_state` cache, the sockets the runtime
reports, which of those raise on `send`, and the frames sent so far. Every operation is a
pure transition returning the next world and a value or an exception. An exception does not
undo the writes and sends made before it.

The second is an OpenAPI-to-IdentityDisk flattener. It covers:

- JSON Pointer resolution with the unescaping of section 4 of RFC 6901;
- deep `$ref` dereferencing with cycle breaking;
- the rendering of a JSON Schema as a compact TypeScript-like type;
- whitespace cleaning;
- one summary line per parameter;
- the rendered request body;
- `build_entries`, which makes one entry per operation with its metadata.

Python behaviour the code relies on is modelled explicitly. This includes:

- `json.dumps` with its default separators and `ensure_ascii`, and `json.loads` for the
  integer subset of JSON;
- truthiness, `str`/`repr`, `in`, iteration and `type(v).__name__`;
- dict keys equal under `==` (`True == 1`), and dict update order;
- string ordering for `list.sort()`;
- the two `re.sub` passes of `_camel_to_kebab`, and `\s+` collapsing.

Every exception the Python code can raise on a malformed input becomes an `Err` carrying the
exception's text.

Modules, one per concern:

- `Results`: `Result`/`Option`.
- `Seqs`: sequence regrouping lemmas.
- `Text`: characters, split/join, case.
- `Json`: values and dict operations.
- `JsonCodec`: dumps/loads.
- `PyValues`: Python semantics on JSON values.
- `Kebab`, `Agent`, `Protocol`, `Counter`, `Routing`: the agent side.
- `Pointer`, `Deref`, `TsTypes`, `TsTypeFacts`, `Clean`, `Extract`, `Sorting`, `Params`,
  `Entries`: the flattener side.

## Model

| member | source | states |
|---|---|---|
| JsonCodec.Dumps | examples/python-agent/src/agent.py:131 | `json.dumps` with `ensure_ascii` writes only printable ASCII, so a frame is one line whatever its strings hold |
| JsonCodec.Loads | examples/python-agent/src/agent.py:101 | text that is empty or only whitespace is not JSON; `LoadsDumps` states that it reads back what `Dumps` wrote |
| JsonCodec.LoadsDumps | examples/python-agent/src/agent.py:99-102 | a value written with `json.dumps` is read back unchanged by `json.loads`, so a persisted state survives a restart |
| JsonCodec.DumpsInjective | examples/python-agent/src/agent.py:131 | two different states are never stored as the same text |
| JsonCodec.ParseDumps | examples/python-agent/src/agent.py:101 | the parser consumes exactly the encoding of a value and leaves what follows it |
| PyValues.PyIn | examples/memory/openapi-to-idz.py:57 | `k in c` is a key test on a dict, and raises exactly on None, booleans and integers |
| PyValues.Iterate | examples/python-agent/src/agent.py:258 | iterating a list gives its items, and iteration raises exactly on None, booleans and integers |
| PyValues.Or | examples/memory/openapi-to-idz.py:89 | `v or d` is `v` when `v` is truthy and `d` otherwise |
| PyValues.KeyEqEquivalence | examples/memory/openapi-to-idz.py:209-212 | Python's `==` on dict keys is reflexive, symmetric and transitive |
| Text.Split | examples/python-agent/src/entry.py:85 | `split("/")` gives at least one field, and no field contains `/` |
| Text.JoinSplit | examples/python-agent/src/entry.py:85 | joining the fields of a split with the separator gives back the string |
| Text.SplitJoin | examples/python-agent/src/entry.py:85 | splitting a join of separator-free fields gives back the fields |
| Kebab.LowerRun | examples/python-agent/src/agent.py:20 | `[a-z]+` matches the longest run of lower-case letters |
| Kebab.SplitWords | examples/python-agent/src/agent.py:20 | the first substitution never shortens the name; `SplitWordsUnhyphen` states that it only inserts hyphens |
| Kebab.SplitHumps | examples/python-agent/src/agent.py:21 | the second substitution never shortens the name; `SplitHumpsUnhyphen` states that it only inserts hyphens |
| Kebab.CamelToKebab | examples/python-agent/src/agent.py:18-21 | the agent name has no upper-case ASCII letter |
| Kebab.KebabOnlyInsertsHyphens | examples/python-agent/src/agent.py:18-21 | apart from the hyphens, the kebab name is the lower-cased class name: the conversion only inserts hyphens |
| Kebab.SplitWordsUnhyphen | examples/python-agent/src/agent.py:20 | the first substitution only inserts hyphens |
| Kebab.SplitHumpsUnhyphen | examples/python-agent/src/agent.py:21 | the second substitution only inserts hyphens |
| Kebab.UnhyphenLower | examples/python-agent/src/agent.py:21 | lower-casing and removing hyphens commute |
| Kebab.KebabIdempotent | examples/python-agent/src/agent.py:18-21 | converting a kebab name again changes nothing |
| Kebab.SplitWordsCopy | examples/python-agent/src/agent.py:20 | text where no match starts is copied unchanged by the first substitution |
| Kebab.SplitHumpsCopy | examples/python-agent/src/agent.py:21 | text where no match starts is copied unchanged by the second substitution |
| Kebab.WordsFirstPass | examples/python-agent/src/agent.py:20 | a hyphen goes before a capitalised word that follows a lower-case word |
| Kebab.WordHump | examples/python-agent/src/agent.py:21 | a hyphen goes between a lower-case letter and the capital after it |
| Kebab.OneWord | examples/python-agent/src/agent.py:18-21 | a single capitalised word is only lower-cased |
| Kebab.BaseClassName | examples/python-agent/src/agent.py:18-21 | the base class `Agent` is named `agent` |
| Kebab.TwoWords | examples/python-agent/src/agent.py:18-21 | two capitalised words become `word-word`, so `CounterAgent` is `counter-agent` |
| Kebab.AcronymThenWords | examples/python-agent/src/agent.py:18-21 | an acronym followed by two words is split after the acronym and between the words, so `HTTPServerAgent` is `http-server-agent` |
| Agent.DumpsVal | examples/python-agent/src/agent.py:131 | `json.dumps` succeeds exactly on the JSON values the model represents, and raises its "not JSON serializable" error on the one opaque object the model allows |
| Agent.StateText | examples/python-agent/src/agent.py:141 | the state frame encodes exactly when the state does, with the same error |
| Agent.Send | examples/python-agent/src/agent.py:145 | a send appends one frame for its socket, or raises that socket's error and changes nothing |
| Agent.Recipients | examples/python-agent/src/agent.py:142-145 | the broadcast goes to every socket except the source, and to all of them when there is no source |
| Agent.RecipientsCount | examples/python-agent/src/agent.py:142-145 | each socket other than the source is addressed exactly as often as `getWebSockets()` lists it, and the source never |
| Agent.RecipientsInOrder | examples/python-agent/src/agent.py:142-145 | the recipients keep the `getWebSockets()` order: they are the socket list's entries at strictly increasing positions |
| Agent.FirstBroken | examples/python-agent/src/agent.py:142-145 | the broadcast stops at the first socket whose send raises |
| Agent.Deliveries | examples/python-agent/src/agent.py:141-145 | every recipient is sent the same frame, in socket order |
| Agent.Broadcast | examples/python-agent/src/agent.py:142-145 | the frame goes to the recipients up to the first broken socket; that socket's error is raised; nothing else in the world changes |
| Agent.BroadcastAll | examples/python-agent/src/agent.py:142-145 | when no socket is broken, every recipient gets the frame and the broadcast succeeds |
| Agent.SetStateInternal | examples/python-agent/src/agent.py:128-147 | the cache is set first, even when encoding fails; an unencodable state raises and leaves the table and the sockets alone; otherwise both rows are written and every socket but the source is sent the state frame, up to the first broken socket |
| Agent.SetState | examples/python-agent/src/agent.py:124-126 | when no socket is broken, a JSON state is cached, persisted and broadcast to every socket |
| Agent.GetState | examples/python-agent/src/agent.py:83-122 | reading the state never changes the sockets |
| Agent.GetStateAppends | examples/python-agent/src/agent.py:83-122 | reading the state only ever adds frames to those already sent |
| Agent.GetStateCached | examples/python-agent/src/agent.py:85-86 | a cached state is returned without touching storage |
| Agent.GetStateFreshNoInitial | examples/python-agent/src/agent.py:118-119 | with nothing stored and no initial state, the state is None and nothing changes |
| Agent.GetStateFreshInitial | examples/python-agent/src/agent.py:121-122 | with nothing stored, the initial state is cached, persisted, broadcast and returned |
| Agent.GetStateParsed | examples/python-agent/src/agent.py:94-102 | a stored state that parses is cached and returned |
| Agent.GetStateCorruptNoInitial | examples/python-agent/src/agent.py:103-114 | a stored state that does not parse, with no initial state, deletes both rows and gives None |
| Agent.GetStateCorruptInitial | examples/python-agent/src/agent.py:103-106 | a stored state that does not parse is replaced by the initial state, which is persisted, broadcast and returned |
| Agent.GetStateRowMissing | examples/python-agent/src/agent.py:94-99 | when the marker row exists but the state row does not, the still-unset cache is returned and nothing changes |
| Agent.GetStateStable | examples/python-agent/src/agent.py:83-122 | once the state has been read, reading it again returns the same value and changes nothing |
| Agent.RestartRoundTrip | examples/python-agent/src/agent.py:124-139 | after `set_state(j)`, a fresh instance with an empty cache reads `j` back from storage |
| Agent.RewriteSameState | examples/python-agent/src/agent.py:128-139 | writing the same state twice leaves the table as after the first write |
| Agent.UnpersistedStateServed | examples/python-agent/src/agent.py:129-131 | an unencodable state raises and is not stored or sent, yet the getter serves it from the cache |
| Protocol.Callable | examples/python-agent/src/agent.py:37-48 | the decorator marks the method and records its description and streaming flag |
| Protocol.FindCallable | examples/python-agent/src/agent.py:229-238 | the method found is marked, public and the first with the name; nothing is found when the first method with the name is not callable |
| Protocol.FindCallableDistinct | examples/python-agent/src/agent.py:229-238 | for a class's methods, whose names are distinct, a name is found exactly when a marked public method has it |
| Protocol.FindCallableAt | examples/python-agent/src/agent.py:229-238 | the first marked, public method with the name is the one dispatched to |
| Protocol.UnderscoreNeverCallable | examples/python-agent/src/agent.py:233-234 | a name starting with `_` is never callable |
| Protocol.CallMethod | examples/python-agent/src/agent.py:256-264 | a call that succeeds ends with a reply to the caller, whose socket is healthy; a non-iterable `args` raises before the handler runs, with nothing changed |
| Protocol.HandleRpc | examples/python-agent/src/agent.py:240-271 | only an unhashable method name or a failed send of the reply escapes; a handled call ends with a reply to the caller (contents per `RpcNotCallable`, `RpcSuccess`, `RpcHandlerRaises`) |
| Protocol.SplatArgs | examples/python-agent/src/agent.py:258 | `method(*args)` succeeds exactly when `args` is iterable, and passes its elements |
| Protocol.RpcResultDecodes | examples/python-agent/src/agent.py:259-264 | a success reply decodes to itself and carries the request's id |
| Protocol.RpcFailureDecodes | examples/python-agent/src/agent.py:248-253 | an error reply decodes to itself and carries the request's id |
| Protocol.RpcNotCallable | examples/python-agent/src/agent.py:240-254 | an unknown, private or unmarked method gets exactly one error reply, sent to the caller, and nothing else happens |
| Protocol.RpcSuccess | examples/python-agent/src/agent.py:256-264 | a handler that returns a value has its effects, then one success reply with the id and result goes to the caller |
| Protocol.RpcHandlerRaises | examples/python-agent/src/agent.py:265-271 | a handler that raises keeps its effects up to the exception, then one error reply with the exception text goes to the caller |
| Protocol.WebSocketMessage | examples/python-agent/src/agent.py:189-217 | a frame passed to `on_message` is the frame received and has no effect; only a frame that parses as JSON can raise |
| Protocol.NonProtocolFramesPassThrough | examples/python-agent/src/agent.py:189-217 | binary frames, text that is not JSON, and objects of any other `type` go to `on_message` unchanged, and nothing else happens |
| Protocol.NonObjectRaises | examples/python-agent/src/agent.py:198 | a JSON frame that is not an object raises on `.get` |
| Protocol.ClientStateExcludesSender | examples/python-agent/src/agent.py:200-203 | a client's state is persisted and echoed to every other socket but never back to its sender |
| Protocol.ClientStateErrorToSender | examples/python-agent/src/agent.py:202-208 | when the broadcast fails, the sender alone gets a `cf_agent_state_error` frame with the error, after the frames already sent |
| Protocol.IsWebSocketUpgrade | examples/python-agent/src/agent.py:161-162 | an upgrade header is an ASCII spelling of `websocket`, or one using the Kelvin sign; `UpgradeAnyCase` is the converse |
| Protocol.Fetch | examples/python-agent/src/agent.py:157-187 | an upgrade adds the server socket to the socket list and answers 101; any other request leaves the sockets alone and answers with a body |
| Protocol.UpgradeAnyCase | examples/python-agent/src/agent.py:161-162 | the `Upgrade` header is matched case-insensitively |
| Protocol.SendInitialState | examples/python-agent/src/agent.py:176-178 | sending the initial state keeps the sockets and only adds frames |
| Protocol.UpgradeIdentityFirst | examples/python-agent/src/agent.py:161-175 | on an upgrade the socket is accepted first, and the first frame sent is the identity frame with the instance name and kebab-case class name |
| Protocol.FirstUpgradeSends | examples/python-agent/src/agent.py:168-178 | on a first upgrade the new socket gets the identity, then the initial state broadcast to all sockets including itself, then the state frame again |
| Protocol.FreshStateSent | examples/python-agent/src/agent.py:176-178 | reading a fresh state broadcasts it, and then the new socket is sent it again |
| Protocol.FirstUpgradeStateTwice | examples/python-agent/src/agent.py:168-178 | a first connection receives the initial state frame exactly twice |
| Protocol.FramesDiffer | examples/python-agent/src/agent.py:171-178 | the identity frame and a state frame are never the same text |
| Protocol.UpgradeNoneStateOnlyIdentity | examples/python-agent/src/agent.py:176-177 | when the state is None, only the identity frame is sent |
| Protocol.PlainRequestBody | examples/python-agent/src/agent.py:184-187 | a plain request is answered with a body that decodes to the agent name and the current state |
| Counter.Subscript | examples/python-agent/src/entry.py:42 | `v["count"]` succeeds exactly on a dict with that key and gives its value; it raises `KeyError` on a dict without the key and `TypeError` on anything else (list, str, int, bool, None, or another object), each with Python's text |
| Counter.PyAdd | examples/python-agent/src/entry.py:42 | `+` adds numbers (booleans count as 0 and 1), concatenates strings and lists, and raises on anything else |
| Counter.PySub | examples/python-agent/src/entry.py:52 | `-` is defined exactly on numbers |
| Counter.SubUndoesAdd | examples/python-agent/src/entry.py:42-52 | subtracting an amount undoes adding it |
| Counter.AmountArg | examples/python-agent/src/entry.py:39 | `amount` defaults to 1, and more than one argument raises |
| Counter.NoArgs | examples/python-agent/src/entry.py:59-64 | `reset` and `get_count` take no argument |
| Counter.CountOf | examples/python-agent/src/entry.py:40-42 | an empty state falls back to the default dict before `["count"]` |
| Counter.Change | examples/python-agent/src/entry.py:38-56 | a successful increment or decrement caches `{"count": n, "last_action": …}` and returns `n` |
| Counter.ChangeState | examples/python-agent/src/entry.py:41-46 | storing the new count keeps the sockets |
| Counter.StoreCount | examples/python-agent/src/entry.py:41-46 | with healthy sockets, the new count state is cached, persisted and broadcast |
| Counter.Increment | examples/python-agent/src/entry.py:38-46 | on success the agent holds the returned count marked `increment`; two or more arguments raise with nothing changed |
| Counter.Decrement | examples/python-agent/src/entry.py:48-56 | on success the agent holds the returned count marked `decrement`; two or more arguments raise with nothing changed |
| Counter.GetCount | examples/python-agent/src/entry.py:63-66 | the socket list is kept; any argument raises with nothing changed; once the state is loaded, reading changes nothing and gives the state's `count` (an empty state counting as `{"count": 0}`), or raises exactly as that subscript does |
| Counter.Reset | examples/python-agent/src/entry.py:58-61 | a reset stores the zero state and returns 0 |
| Counter.SetStateMethod | examples/python-agent/src/agent.py:124-126 | `set_state` with the wrong number of arguments raises and changes nothing |
| Counter.LiteralCounts | examples/python-agent/src/entry.py:24 | the initial state, the read fallback and the reset state all count 0 |
| Counter.Registered | examples/python-agent/src/entry.py:38-66 | the four decorated methods are callable over RPC |
| Counter.SetStateNotCallable | examples/python-agent/src/agent.py:124-126 | the inherited `set_state` is not callable over RPC |
| Counter.FreshCountIsZero | examples/python-agent/src/entry.py:63-66 | a fresh counter counts 0 and persists its initial state |
| Counter.GetCountReadOnly | examples/python-agent/src/entry.py:63-66 | reading the count of a loaded state changes nothing |
| Counter.ChangeFromCount | examples/python-agent/src/entry.py:38-56 | from count `c`, a change by `a` stores and broadcasts `c ± a` |
| Counter.ChangeResult | examples/python-agent/src/entry.py:38-56 | a change returns the new count, which is what the state then counts |
| Counter.DecrementUndoesIncrement | examples/python-agent/src/entry.py:38-56 | decrementing by `a` after incrementing by `a` returns the old count |
| Counter.ChangeFromEmptyState | examples/python-agent/src/entry.py:40 | a falsy state counts from 0 |
| Counter.ResetResult | examples/python-agent/src/entry.py:58-61 | reset returns 0 |
| Counter.ResetThenCount | examples/python-agent/src/entry.py:58-66 | after a reset the count is 0 |
| Counter.GetCountFalsy | examples/python-agent/src/entry.py:63-66 | a falsy state (`None`, `{}`, …) reads as count 0 and changes nothing |
| Counter.ChangeThenCount | examples/python-agent/src/entry.py:38-66 | after `increment(a)` or `decrement(a)` from count `c`, `get_count()` returns `c + a` or `c - a` |
| Counter.IncrementArity | examples/python-agent/src/entry.py:39 | two or more arguments raise Python's arity error and change nothing |
| Counter.ResetArity | examples/python-agent/src/entry.py:59 | any argument to `reset` raises and changes nothing |
| Counter.NonNumericCount | examples/python-agent/src/entry.py:42 | a string count raises the concatenation `TypeError` and changes nothing |
| Counter.MissingCount | examples/python-agent/src/entry.py:65-66 | a non-empty state without `count` raises `KeyError('count')` |
| Counter.IncrementDispatched | examples/python-agent/src/agent.py:240-264 | an RPC `increment` with amount `a` on count `c` replies `c + a` to the caller |
| Counter.IncrementOverRpc | examples/python-agent/src/agent.py:211-213 | an `rpc` frame calling `increment` is handled: the new state is cached and broadcast to every socket |
| Routing.InstanceName | examples/python-agent/src/entry.py:85-86 | the instance name is never empty |
| Routing.RouteFor | examples/python-agent/src/entry.py:72-91 | the test page is served exactly at the root; a path goes to an agent exactly when it starts with `/agent`, to a non-empty instance name without `/`; everything else is not found |
| Routing.AgentInstance | examples/python-agent/src/entry.py:83-89 | `/agent…/name/…` routes to instance `name` |
| Routing.BareAgentPath | examples/python-agent/src/entry.py:86 | a path with no third field routes to `default` |
| Routing.EmptyInstanceField | examples/python-agent/src/entry.py:86 | an empty third field routes to `default` |
| Pointer.Unescape | examples/memory/openapi-to-idz.py:17 | a reference token without `~` is a member name as it stands; `UnescapeEscape` states that unescaping inverts escaping |
| Pointer.Walk | examples/memory/openapi-to-idz.py:16-21 | each step needs a dict holding the unescaped token, and otherwise the result is None |
| Pointer.ResolvePointer | examples/memory/openapi-to-idz.py:11-22 | a pointer that does not start with `#/` resolves to None |
| Pointer.ResolvePointerTo | examples/memory/openapi-to-idz.py:11-22 | the pointer built from escaped keys resolves to the value reached by following those keys |
| Pointer.WalkEscaped | examples/memory/openapi-to-idz.py:16-21 | walking escaped tokens follows the original keys |
| Pointer.WalkStops | examples/memory/openapi-to-idz.py:18-21 | a missing key, or a value that is not a dict, stops resolution with None |
| Pointer.UnescapeOrder | examples/memory/openapi-to-idz.py:17 | `~1` is replaced before `~0`, so `~01` becomes `~1` and not `/` |
| Pointer.UnescapeEscape | examples/memory/openapi-to-idz.py:17 | unescaping undoes escaping |
| Pointer.EscapeKey | examples/memory/openapi-to-idz.py:16-17 | an escaped key never contains `/` |
| Deref.Deref | examples/memory/openapi-to-idz.py:24-46 | the result holds no `$ref`; scalars are unchanged; lists keep their length; a dict without `$ref` keeps its keys, in order |
| Deref.DerefRef | examples/memory/openapi-to-idz.py:28-41 | a `$ref` dict dereferences to something resolved and not None |
| Deref.DerefMembers | examples/memory/openapi-to-idz.py:42-43 | every value of a dict is dereferenced under its own key |
| Deref.DerefItems | examples/memory/openapi-to-idz.py:44-45 | every item of a list is dereferenced, in order |
| Deref.FollowShrinks | examples/memory/openapi-to-idz.py:30-41 | following a reference strictly shrinks the set of references not yet seen, so dereferencing terminates |
| Deref.MergeOverrides | examples/memory/openapi-to-idz.py:37-40 | the siblings of `$ref` override the target's keys, and the target's other keys survive |
| Deref.ResolvedFixed | examples/memory/openapi-to-idz.py:42-46 | a value with no `$ref` anywhere inside it is returned unchanged |
| Deref.DerefIdempotent | examples/memory/openapi-to-idz.py:24-46 | dereferencing a dereferenced value changes nothing |
| Deref.InlineRef | examples/memory/openapi-to-idz.py:34-41 | a bare reference to a resolved dict is replaced by that dict |
| Deref.SelfReference | examples/memory/openapi-to-idz.py:30-32 | a self-reference is cut to `{"type": "object"}` |
| Deref.DanglingRef | examples/memory/openapi-to-idz.py:35-36 | a reference that does not resolve gives `{}` |
| Deref.SiblingWins | examples/memory/openapi-to-idz.py:38-40 | a sibling key of `$ref` wins over the target's value for that key |
| TsTypes.TsType | examples/memory/openapi-to-idz.py:50-133 | a missing schema renders `unknown`, and a schema that is not a dict raises |
| TsTypes.TsBody | examples/memory/openapi-to-idz.py:60-133 | a schema body that is not a dict raises |
| TsTypes.NonDictBody | examples/memory/openapi-to-idz.py:67 | a non-dict schema raises at the first `in` test |
| TsTypes.ArrayOf | examples/memory/openapi-to-idz.py:84-85 | an array renders as its item type followed by `[]`, and fails exactly when the item type does |
| TsTypes.TsList | examples/memory/openapi-to-idz.py:68-72 | the alternatives render one by one, in order |
| TsTypes.ObjectType | examples/memory/openapi-to-idz.py:88-114 | an object type is braced: it starts with `{` and a newline and ends with `}` |
| TsTypes.Braced | examples/memory/openapi-to-idz.py:113-114 | the body lines are wrapped in braces |
| TsTypes.RequiredSet | examples/memory/openapi-to-idz.py:90 | `set(required)` succeeds exactly on an iterable of hashable values |
| TsTypes.IndexSignature | examples/memory/openapi-to-idz.py:108-111 | a dict `additionalProperties` adds a `[key: string]` line, and anything else adds none |
| TsTypes.PropLine | examples/memory/openapi-to-idz.py:95-106 | a property line needs a dict subschema whose type renders |
| TsTypes.PropComment | examples/memory/openapi-to-idz.py:96-105 | a non-empty comment starts with ` // ` |
| TsTypes.EnumNote | examples/memory/openapi-to-idz.py:97-99 | the enum note reads `one of …`, and raises exactly when the enum is not iterable |
| TsTypes.NonEmpty | examples/memory/openapi-to-idz.py:104 | the empty comment parts are dropped and every other part is kept |
| TsTypeFacts.NoRefBody | examples/memory/openapi-to-idz.py:57-58 | a schema without `$ref` is rendered as it is |
| TsTypeFacts.DepthCap | examples/memory/openapi-to-idz.py:60-64 | at the depth limit only the type name is kept, and `object` when it is not a string |
| TsTypeFacts.DepthCapArray | examples/memory/openapi-to-idz.py:62-63 | at the depth limit an array still renders its items, at the same depth |
| TsTypeFacts.RefInlined | examples/memory/openapi-to-idz.py:57-58 | a `$ref` schema renders as its target |
| TsTypeFacts.CombinatorJoins | examples/memory/openapi-to-idz.py:67-72 | `oneOf`/`anyOf` join with ` \| ` and `allOf` with ` & `, each alternative one level deeper |
| TsTypeFacts.ConstFirst | examples/memory/openapi-to-idz.py:75-76 | `const` renders as its JSON text |
| TsTypeFacts.EnumUnion | examples/memory/openapi-to-idz.py:77-78 | `enum` renders as the union of its JSON texts |
| TsTypeFacts.PrimitiveName | examples/memory/openapi-to-idz.py:117-119 | a primitive renders by name, `integer` as `number`, with its format as a comment |
| TsTypeFacts.EmptyObject | examples/memory/openapi-to-idz.py:113-114 | an object without properties renders as an empty brace pair |
| TsTypeFacts.ExtensionSkipped | examples/memory/openapi-to-idz.py:93-94 | properties named `x-…` produce no line |
| TsTypeFacts.OptionalUnlessRequired | examples/memory/openapi-to-idz.py:100 | a property is marked `?` exactly when it is not listed as required |
| TsTypeFacts.TypelessFallbacks | examples/memory/openapi-to-idz.py:122-131 | without a `type`, `{}` renders as `any`, a schema with `pattern`, `minLength` or `maxLength` as `string`, and one with none of those and no `items` as `any` |
| TsTypeFacts.UnknownType | examples/memory/openapi-to-idz.py:117-133 | a `type` that is not a primitive, `array` or `object` (`"uuid"`, `3`) renders as `any` |
| TsTypeFacts.InferredArray | examples/memory/openapi-to-idz.py:129-130 | a schema with `items` and no `type` renders as an array |
| TsTypeFacts.ExplicitNullRecurses | examples/memory/openapi-to-idz.py:122-130 | an explicit `"type": null` with `items` survives the `{"type": "array", **s}` spread, so the call recurses without end |
| TsTypeFacts.NullTypeTyped | examples/memory/openapi-to-idz.py:122-130 | the typed branch of such a schema ends in the recursion error |
| Clean.CleanText | examples/memory/openapi-to-idz.py:135-138 | the result is the words of the text joined by single spaces, with no leading, trailing or repeated blank |
| Clean.CleanTextOf | examples/memory/openapi-to-idz.py:135-138 | falsy text gives `""`; a non-string raises; a string is cleaned |
| Clean.CleanIdempotent | examples/memory/openapi-to-idz.py:135-138 | cleaning twice is cleaning once |
| Clean.CleanFixpoint | examples/memory/openapi-to-idz.py:138 | clean text is left as it is |
| Clean.CleanTwoWords | examples/memory/openapi-to-idz.py:138 | tabs, newlines and padding around two words collapse to one space |
| Clean.CollapseWords | examples/memory/openapi-to-idz.py:138 | collapsing blank runs and stripping the ends leaves the words joined by single spaces |
| Clean.WordsOfJoin | examples/memory/openapi-to-idz.py:138 | the words of a space-joined list of words are that list |
| Clean.JoinWordsClean | examples/memory/openapi-to-idz.py:138 | words joined by single spaces form clean text |
| Clean.CleanWords | examples/memory/openapi-to-idz.py:138 | clean text is exactly its own words joined by single spaces |
| Extract.DerefParameter | examples/memory/openapi-to-idz.py:144-145 | a parameter without `$ref` is kept as it is; one with `$ref` is dereferenced; it raises on scalars and when dereferencing raises |
| Extract.DerefParameterTwice | examples/memory/openapi-to-idz.py:144-145 | dereferencing a parameter twice is dereferencing it once |
| Extract.SummarizeParameter | examples/memory/openapi-to-idz.py:147-161 | the line starts with `in:name —` and is made from a dict parameter |
| Extract.RefParameterSummarisesTarget | examples/memory/openapi-to-idz.py:144-149 | a parameter given as a bare `$ref` to a resolved dict is summarised exactly as that dict |
| Extract.LineHead | examples/memory/openapi-to-idz.py:158 | every parameter line starts with its location and name |
| Extract.SummaryLine | examples/memory/openapi-to-idz.py:147-161 | a line is the location, name, type, requiredness and cleaned description, the description omitted when empty |
| Extract.SchemaDerefRedundant | examples/memory/openapi-to-idz.py:151-153 | dereferencing the schema before rendering gives the same type text, or the same error, as rendering it directly |
| Extract.ResolvedRendersDirectly | examples/memory/openapi-to-idz.py:57-58 | a schema without references skips dereferencing |
| Extract.FirstPreferred | examples/memory/openapi-to-idz.py:170 | the first preferred content type present is chosen, and none when none is present |
| Extract.ContentType | examples/memory/openapi-to-idz.py:168-174 | empty content has no type; non-empty content always has one, and it is one of its keys |
| Extract.BodySchema | examples/memory/openapi-to-idz.py:164-177 | a falsy `requestBody` has no schema, and a schema found is truthy and resolved |
| Extract.ExtractRequestBody | examples/memory/openapi-to-idz.py:163-178 | no body or no schema gives `""`; a non-empty result comes from a schema |
| Extract.PreferredWins | examples/memory/openapi-to-idz.py:169-170 | an earlier preferred type wins over a later one |
| Extract.JsonPreferred | examples/memory/openapi-to-idz.py:169-170 | `application/json` is chosen whenever it is present |
| Extract.FirstKeyFallback | examples/memory/openapi-to-idz.py:171-172 | with no preferred type present, the first content key is chosen |
| Extract.JsonBodyRendered | examples/memory/openapi-to-idz.py:163-178 | a JSON body schema renders as its type |
| Sorting.Insert | examples/memory/openapi-to-idz.py:217 | inserting into a sorted list keeps it sorted and adds exactly that element |
| Sorting.Sort | examples/memory/openapi-to-idz.py:217 | the result is sorted and a permutation of the input |
| Sorting.SortedUnique | examples/memory/openapi-to-idz.py:217 | a sorted permutation is unique, so any correct sort gives the same list |
| Sorting.SortIsSorted | examples/memory/openapi-to-idz.py:217 | every sorted permutation of the input is the result of `Sort` |
| Sorting.SortSorted | examples/memory/openapi-to-idz.py:217 | sorting a sorted list changes nothing |
| Sorting.SortPair | examples/memory/openapi-to-idz.py:217 | two strings come out in ascending order |
| Sorting.LessEqTotal | examples/memory/openapi-to-idz.py:217 | any two strings are comparable |
| Sorting.LessEqAntisymmetric | examples/memory/openapi-to-idz.py:217 | strings that are each at most the other are equal |
| Sorting.LessEqTransitive | examples/memory/openapi-to-idz.py:217 | string order is transitive |
| Sorting.PrefixFirst | examples/memory/openapi-to-idz.py:217 | a string sorts before anything it is a prefix of |
| Params.Canon | examples/memory/openapi-to-idz.py:211 | the canonical form of a hashable key is hashable |
| Params.CanonKeyEq | examples/memory/openapi-to-idz.py:211-212 | two keys are equal under `==` exactly when their canonical forms are equal |
| Params.KeyOf | examples/memory/openapi-to-idz.py:211 | a key exists exactly for a dict whose name and location are hashable |
| Params.SameKey | examples/memory/openapi-to-idz.py:211-212 | two parameters share a key exactly when their names and locations are equal under `==` |
| Params.Store | examples/memory/openapi-to-idz.py:212 | a stored key reads back the new value; an existing key keeps its place, a new key goes last; other keys are unchanged |
| Params.MergeInto | examples/memory/openapi-to-idz.py:210-212 | the merge succeeds exactly when every parameter has a key |
| Params.LastFor | examples/memory/openapi-to-idz.py:210-212 | the winner for a key is a parameter with that key, and there is none when no parameter has it |
| Params.Merge | examples/memory/openapi-to-idz.py:209-212 | each key appears once, holding the last parameter with that key |
| Params.LastWins | examples/memory/openapi-to-idz.py:210-212 | a parameter added last wins its key |
| Params.OperationOverrides | examples/memory/openapi-to-idz.py:207-212 | operation parameters override path parameters with an equal `(name, in)`, and other path parameters survive |
| Params.SingleKept | examples/memory/openapi-to-idz.py:209-214 | a parameter whose key is unique is kept |
| Entries.DerefAll | examples/memory/openapi-to-idz.py:190 | every parameter is dereferenced in order, and the list fails exactly when one parameter fails |
| Entries.ParamList | examples/memory/openapi-to-idz.py:208 | no `parameters` key gives no parameters |
| Entries.ForNamed | examples/memory/openapi-to-idz.py:214-216 | exactly the parameters with a truthy name are summarised, in order |
| Entries.NamedLines | examples/memory/openapi-to-idz.py:214-216 | each named parameter gives its summary line, in merged order |
| Entries.ParameterLines | examples/memory/openapi-to-idz.py:209-216 | one line per named parameter of the merged dict |
| Entries.TextOf | examples/memory/openapi-to-idz.py:198-200 | a missing text is `""`, and every text is clean |
| Entries.OpTexts | examples/memory/openapi-to-idz.py:198-200 | the summary, description and operationId are cleaned independently |
| Entries.OperationEntry | examples/memory/openapi-to-idz.py:195-238 | the entry carries the path and upper-case method; the content is the summary, else the description; the summary falls back on the operationId; the parameter lines are sorted and present only when there are some; the request body is present only when it is not empty |
| Entries.MethodEntries | examples/memory/openapi-to-idz.py:192-238 | one entry per method the path item has, in visiting order |
| Entries.PathItemEntries | examples/memory/openapi-to-idz.py:186-238 | a path item that is not a dict gives no entry; a dict gives one per method it has, each the entry built from the operation under that method with the item's own dereferenced parameters |
| Entries.PathEntries | examples/memory/openapi-to-idz.py:186-238 | one entry per operation, in path order, each naming its path and method and each the entry built from that operation and its path item's parameters |
| Entries.BuildEntries | examples/memory/openapi-to-idz.py:182-240 | a spec that is not a dict raises; otherwise there is one entry per operation, in order, each with its endpoint and upper-case method, and each the entry built from that operation and its path item's parameters |
| Entries.BuiltAppend | examples/memory/openapi-to-idz.py:186-238 | the entries of two runs of operations, concatenated, are the entries of the concatenated operations |
| Entries.SkipNonDict | examples/memory/openapi-to-idz.py:187-188 | a path item that is not a dict is skipped and raises nothing |
| Entries.MethodOrderIrrelevant | examples/memory/openapi-to-idz.py:142-195 | the operations found do not depend on the order in which the method set is visited |
| Entries.PresentCount | examples/memory/openapi-to-idz.py:192-194 | a method is visited exactly when the path item has it |
| Entries.AllPresent | examples/memory/openapi-to-idz.py:192-194 | when the path item has every method, every method is visited |
| Entries.EveryMethod | examples/memory/openapi-to-idz.py:142 | a path item with all eight HTTP methods gives eight operations |

## Left out

- Foreign calls into the JavaScript runtime are not modelled. These are `_to_js`/`to_js`, `Response.new`, `WebSocketPair`, `Object.values`, `idFromName`, stub `fetch`, and `urlparse`. The URL path, the `Upgrade` header, the accepted server socket and `str(self.ctx.id)` are parameters instead.
- The SQL layer is a map from row id to text. It omits table creation in `_init_tables`, the `sql` helper, and the `toArray` plumbing.
- The override hooks are not modelled: `on_connect`, `on_message`, `on_close`, `on_error` and `on_state_changed`. In the base class they do nothing; in `CounterAgent` they only print. A frame routed to `on_message` is reported as `OnMessage` instead.
- `webSocketClose` and `webSocketError` are not modelled. They only forward to those hooks.
- `TEST_PAGE_HTML` and the response objects `Default.fetch` builds are not modelled; the routing decision is.
- Concurrency and hibernation are not modelled. Each model operation is one uninterrupted call.
- Agent state is modelled as a JSON-native value or one opaque object of another class (`Foreign`). Tuples, dicts with `int`, `bool` or `None` keys, and foreign objects nested inside a dict or list are outside the model. Python's `json.dumps` writes a tuple as a list, turns those keys into strings, and raises naming the inner object's type. A state such as `(1, 2)` or `{1: "a"}` therefore does not read back unchanged after a restart, which `Agent.RestartRoundTrip` does not show. RPC states come from `json.loads`, and `CounterAgent` stores only str-keyed dicts, so neither reaches these cases.
- JSON floats, NaN, Infinity and lone surrogates are not modelled. JSON numbers are integers, and `json.loads` is modelled for that subset. `repr` of a value follows Python's quoting rules for plain strings only. Valid JSON outside the integer subset (`1.5`, `NaN`) therefore reads as undecodable. The model passes such a text frame to `on_message`, and it treats such a stored state as corrupt. Python parses both (agent.py:101 and 193).
- `json.loads` limits are not modelled. Python 3.11 and later raise `ValueError` for an integer literal over 4300 digits, and any Python raises `RecursionError` for very deeply nested arrays or objects. Neither is a `json.JSONDecodeError`. So such a text frame escapes the `except` at agent.py:193-196 and fails the whole handler, and such a stored state escapes the `except` at agent.py:100-103 in the state getter. The model parses such text like any other: it routes the frame and caches the state.
- Unicode case mapping beyond ASCII is not modelled. Only ASCII letters are converted, plus the Kelvin sign that `str.lower()` maps to `k` in the upgrade test. Whitespace is Python's full `str.isspace` set, so `\s` and `str.split()` are modelled for every code point.
- Exception texts follow Python's messages closely but not character for character.
- Python's `RecursionError` is modelled as an `Err` with a fixed text.
- `Protocol.FindCallable`: the `dir()` order of the registry is abstracted to the order of the class's method list. The `hasattr`/`getattr` lookups are a `marked` flag per method. A class has one attribute per name, so only the first method with a name is seen; `Protocol.FindCallableDistinct` states the plain membership rule for a list with distinct names.
- `Protocol.Callable`: the bare `@callable` form without arguments is not modelled separately. It marks the method the same way with the default metadata.
- `Entries.BuildEntries`: the iteration order of the Python set `HTTP_METHODS` depends on string hashing, so it is a parameter (any order of the eight methods). The returned `{"entries": […]}` dict is a sequence of entries whose optional metadata keys are `Option` fields.
- `Entries.ParameterLines`: its contract states only how many lines there are. `Entries.NamedLines` states their contents, and `Entries.OperationEntry` states that the stored list is their sorted permutation.
- `Deref.MergeOverrides`: it requires distinct keys in the referencing dict, as a parsed JSON object has. The override rule is stated for that case only.
- `Extract.DerefParameterTwice`: it excludes parameters that dereference to a scalar. Such a value makes the second `"$ref" in p` raise.
- `Extract.SchemaDerefRedundant`: it excludes a missing schema and a depth at or past the limit.
- The command-line wrapper of the flattener is not modelled: argument parsing, file reading and writing, and the JSON output file.
