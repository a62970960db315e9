/** The example agent: `CounterAgent`, whose state is `{"count": n, "last_action": a}` and
    whose four RPC methods read and change the count. */
module Counter {
  import opened Results
  import opened Text
  import opened Json
  import opened JsonCodec
  import opened PyValues
  import opened Agent
  import opened Protocol

  const ClassName := "CounterAgent"

  /** `initial_state`. */
  const Initial := Obj([Member("count", Int(0)), Member("last_action", Null)])

  /** The fallback `get_count` reads when the state is empty. */
  const ZeroCount := Obj([Member("count", Int(0))])

  /** The state `reset` stores. */
  const ResetState := Obj([Member("count", Int(0)), Member("last_action", Str("reset"))])

  /** The state `increment` and `decrement` store. */
  function CountState(n: Json, action: string): Json {
    Obj([Member("count", n), Member("last_action", Str(action))])
  }

  /** No socket the agent holds is broken, so every send succeeds. */
  predicate Healthy(w: World) {
    forall x :: x in w.sockets ==> x !in w.broken
  }

  // ---------------------------------------------------------------- Python operators

  /** `bool(v)` for anything the `state` getter returns. `_UNSET` is a bare `object()`, which
      is truthy; objects that JSON cannot encode are taken to be truthy too. */
  predicate PyTruthy(v: PyVal) {
    match v
    case Val(j) => Truthy(j)
    case _ => true
  }

  function TypeNameOf(v: PyVal): string {
    match v
    case Val(j) => TypeName(j)
    case Unset => "object"
    case Foreign(t) => t
  }

  /** The `TypeError` text of `v[k]` with a string key on a value that is not a dict. */
  function NotSubscriptable(v: PyVal): string {
    match v
    case Val(Arr(_)) => "list indices must be integers or slices, not str"
    case Val(Str(_)) => "string indices must be integers, not 'str'"
    case _ => "'" + TypeNameOf(v) + "' object is not subscriptable"
  }

  /** `v[k]` for a string key, with the text of the exception when it raises: a dict without
      the key raises `KeyError` (which prints as the repr of the key), anything else that is
      not a dict raises `TypeError`. */
  function Subscript(v: PyVal, k: string): (r: Result<Json>)
    ensures r.Ok? ==> v.Val? && v.json.Obj? && Lookup(v.json.members, k) == Some(r.value)
    ensures v.Val? && v.json.Obj? && !HasKey(v.json.members, k) ==> r == Err(ReprText(k))
    ensures !(v.Val? && v.json.Obj?) ==> r == Err(NotSubscriptable(v))
    ensures r.Err? <==> !(v.Val? && v.json.Obj? && HasKey(v.json.members, k))
  {
    match v
    case Val(Obj(ms)) =>
      (match Lookup(ms, k)
       case Some(x) => Ok(x)
       case None => Err(ReprText(k)))
    case _ => Err(NotSubscriptable(v))
  }

  /** The `TypeError` text for a concatenation whose right operand has the wrong type. */
  function ConcatError(left: string, right: string): string {
    "can only concatenate " + left + " (not \"" + right + "\") to " + left
  }

  /** The `TypeError` text for an operator neither operand supports. */
  function OperandError(op: string, left: Json, right: Json): string {
    "unsupported operand type(s) for " + op + ": '" + TypeName(left) + "' and '" + TypeName(right) + "'"
  }

  /** `a + b`: numbers (a `bool` counts as 0 or 1) add, strings and lists concatenate,
      anything else raises `TypeError`. */
  function PyAdd(a: Json, b: Json): (r: Result<Json>)
    ensures r.Ok? <==> (Num(a).Some? && Num(b).Some?) || (a.Str? && b.Str?) || (a.Arr? && b.Arr?)
    ensures r.Ok? && Num(a).Some? ==> r.value == Int(Num(a).value + Num(b).value)
    ensures r.Ok? && a.Str? ==> r.value == Str(a.s + b.s)
    ensures r.Ok? && a.Arr? ==> r.value == Arr(a.items + b.items)
  {
    if Num(a).Some? && Num(b).Some? then Ok(Int(Num(a).value + Num(b).value))
    else if a.Str? then
      if b.Str? then Ok(Str(a.s + b.s)) else Err(ConcatError("str", TypeName(b)))
    else if a.Arr? then
      if b.Arr? then Ok(Arr(a.items + b.items)) else Err(ConcatError("list", TypeName(b)))
    else Err(OperandError("+", a, b))
  }

  /** `a - b`: only numbers subtract. */
  function PySub(a: Json, b: Json): (r: Result<Json>)
    ensures r.Ok? <==> Num(a).Some? && Num(b).Some?
    ensures r.Ok? ==> r.value == Int(Num(a).value - Num(b).value)
  {
    if Num(a).Some? && Num(b).Some? then Ok(Int(Num(a).value - Num(b).value))
    else Err(OperandError("-", a, b))
  }

  /** Subtracting what was added gives back the first operand's numeric value. */
  lemma SubUndoesAdd(a: Json, b: Json)
    requires Num(a).Some? && Num(b).Some?
    ensures PyAdd(a, b).Ok? && PySub(PyAdd(a, b).value, b) == Ok(Int(Num(a).value))
  {
  }

  // ---------------------------------------------------------------- argument binding

  /** Binding `(self, amount=1)` for the method `qualname`: no argument gives the default,
      one is taken, more raise. */
  function AmountArg(qualname: string, argv: seq<Json>): (r: Result<Json>)
    ensures r.Ok? <==> |argv| <= 1
    ensures r.Ok? ==> r.value == (if argv == [] then Int(1) else argv[0])
  {
    if |argv| == 0 then Ok(Int(1))
    else if |argv| == 1 then Ok(argv[0])
    else Err(qualname + " takes from 1 to 2 positional arguments but " + NatText(|argv| + 1) + " were given")
  }

  /** Binding `(self)` for the method `qualname`: any argument raises. */
  function NoArgs(qualname: string, argv: seq<Json>): (r: Result<()>)
    ensures r.Ok? <==> argv == []
  {
    if argv == [] then Ok(())
    else Err(qualname + " takes 1 positional argument but " + NatText(|argv| + 1) + " were given")
  }

  // ---------------------------------------------------------------- methods

  datatype Direction = Up | Down

  function ActionName(d: Direction): string {
    match d
    case Up => "increment"
    case Down => "decrement"
  }

  function QualName(d: Direction): string {
    match d
    case Up => "CounterAgent.increment()"
    case Down => "CounterAgent.decrement()"
  }

  function Apply(d: Direction, count: Json, amount: Json): Result<Json> {
    match d
    case Up => PyAdd(count, amount)
    case Down => PySub(count, amount)
  }

  /** `(state or fallback)["count"]`. */
  function CountOf(state: PyVal, fallback: Json): (r: Result<Json>)
    ensures PyTruthy(state) ==> r == Subscript(state, "count")
    ensures !PyTruthy(state) ==> r == Subscript(Val(fallback), "count")
  {
    Subscript(if PyTruthy(state) then state else Val(fallback), "count")
  }

  /** The shared body of `increment` and `decrement`: read the state (an empty state counts
      as `initial_state`), combine its count with the amount, store the new count with the
      action's name, and return the new count. Nothing is stored when a step raises. */
  function Change(w: World, argv: seq<Json>, d: Direction): (r: Step<PyVal>)
    ensures r.w.sockets == w.sockets && r.w.broken == w.broken
    ensures r.out.Ok? ==> r.out.value.Val? && r.w.cache == Val(CountState(r.out.value.json, ActionName(d)))
  {
    match AmountArg(QualName(d), argv)
    case Err(e) => Step(w, Err(e))
    case Ok(amount) =>
      var g := GetState(w, Val(Initial));
      if g.out.Err? then Step(g.w, Err(g.out.error))
      else ChangeState(g.w, g.out.value, amount, d)
  }

  /** The part of `increment` and `decrement` after the state has been read. */
  function ChangeState(w: World, state: PyVal, amount: Json, d: Direction): (r: Step<PyVal>)
    ensures r.w.sockets == w.sockets && r.w.broken == w.broken
    ensures r.out.Ok? ==> r.out.value.Val? && r.w.cache == Val(CountState(r.out.value.json, ActionName(d)))
  {
    match CountOf(state, Initial)
    case Err(e) => Step(w, Err(e))
    case Ok(count) =>
      match Apply(d, count, amount)
      case Err(e) => Step(w, Err(e))
      case Ok(n) => StoreCount(w, n, d)
  }

  /** Stores the new count and returns it. */
  function StoreCount(w: World, n: Json, d: Direction): (r: Step<PyVal>)
    ensures r.w.sockets == w.sockets && r.w.broken == w.broken
    ensures r.out.Ok? ==> r.out.value == Val(n) && r.w.cache == Val(CountState(n, ActionName(d)))
    ensures Healthy(w) ==>
              var st := CountState(n, ActionName(d));
              r == Step(w.(cache := Val(st), store := Persisted(w.store, Dumps(st)),
                           sent := w.sent + Deliveries(w.sockets, Dumps(StateFrame(st)))), Ok(Val(n)))
  {
    var s := SetState(w, Val(CountState(n, ActionName(d))));
    if s.out.Err? then Step(s.w, Err(s.out.error)) else Step(s.w, Ok(Val(n)))
  }

  /** `increment(amount=1)`: on success the agent holds the returned count, marked as an
      increment; two or more arguments raise with nothing changed. */
  function Increment(w: World, argv: seq<Json>): (r: Step<PyVal>)
    ensures r.out.Ok? ==> r.out.value.Val? && r.w.cache == Val(CountState(r.out.value.json, "increment"))
    ensures |argv| > 1 ==> r.w == w && r.out.Err?
  {
    Change(w, argv, Up)
  }

  /** `decrement(amount=1)`, the same with the amount subtracted. */
  function Decrement(w: World, argv: seq<Json>): (r: Step<PyVal>)
    ensures r.out.Ok? ==> r.out.value.Val? && r.w.cache == Val(CountState(r.out.value.json, "decrement"))
    ensures |argv| > 1 ==> r.w == w && r.out.Err?
  {
    Change(w, argv, Down)
  }

  /** `reset()`: stores the zero state without reading the old one and returns 0. */
  function Reset(w: World, argv: seq<Json>): (r: Step<PyVal>)
    ensures r.out.Ok? ==> r.out == Ok(Val(Int(0))) && r.w.cache == Val(ResetState)
  {
    match NoArgs("CounterAgent.reset()", argv)
    case Err(e) => Step(w, Err(e))
    case Ok(_) =>
      var s := SetState(w, Val(ResetState));
      if s.out.Err? then Step(s.w, Err(s.out.error)) else Step(s.w, Ok(Val(Int(0))))
  }

  /** `get_count()`: the count of the state, an empty state counting as `{"count": 0}`. Once
      the state has been read, reading the count has no effect and gives the state's
      `["count"]`, or raises as that subscript does. */
  function GetCount(w: World, argv: seq<Json>): (r: Step<PyVal>)
    ensures r.w.sockets == w.sockets
    ensures argv != [] ==> r.w == w && r.out.Err?
    ensures argv == [] && w.cache != Unset ==>
              var c := CountOf(w.cache, ZeroCount);
              && r.w == w
              && r.out == (if c.Ok? then Ok(Val(c.value)) else Err(c.error))
  {
    match NoArgs("CounterAgent.get_count()", argv)
    case Err(e) => Step(w, Err(e))
    case Ok(_) =>
      var g := GetState(w, Val(Initial));
      if g.out.Err? then Step(g.w, Err(g.out.error))
      else
        match CountOf(g.out.value, ZeroCount)
        case Err(e) => Step(g.w, Err(e))
        case Ok(count) => Step(g.w, Ok(Val(count)))
  }

  /** `set_state(state)`, inherited from the base class and not marked callable. */
  function SetStateMethod(w: World, argv: seq<Json>): (r: Step<PyVal>)
    ensures |argv| != 1 ==> r.w == w && r.out.Err?
  {
    if |argv| == 0 then Step(w, Err("Agent.set_state() missing 1 required positional argument: 'state'"))
    else if |argv| > 1 then
      Step(w, Err("Agent.set_state() takes 2 positional arguments but " + NatText(|argv| + 1) + " were given"))
    else
      var s := SetState(w, Val(argv[0]));
      if s.out.Err? then Step(s.w, Err(s.out.error)) else Step(s.w, Ok(Val(Null)))
  }

  /** The class as the RPC layer sees it. */
  const Class := AgentClass(ClassName, Val(Initial), [
    Callable("increment", Increment, Str("Increment the counter by a given amount"), false),
    Callable("decrement", Decrement, Str("Decrement the counter by a given amount"), false),
    Callable("reset", Reset, Str("Reset the counter to zero"), false),
    Callable("get_count", GetCount, Str("Get the current count"), false),
    Method("set_state", false, Null, SetStateMethod)
  ])

  // ---------------------------------------------------------------- properties

  /** The three literal states all count 0. */
  lemma LiteralCounts()
    ensures Subscript(Val(Initial), "count") == Ok(Int(0))
    ensures Subscript(Val(ZeroCount), "count") == Ok(Int(0))
    ensures Subscript(Val(ResetState), "count") == Ok(Int(0))
  {
  }

  /** The four decorated methods are dispatched to. */
  lemma Registered()
    ensures FindCallable(Class.methods, "increment") == Some(0)
    ensures FindCallable(Class.methods, "decrement") == Some(1)
    ensures FindCallable(Class.methods, "reset") == Some(2)
    ensures FindCallable(Class.methods, "get_count") == Some(3)
  {
    var ms := Class.methods;
    assert FindCallable(ms, "increment") == Some(0) by {
      FindCallableAt(ms, "increment", 0);
    }
    assert FindCallable(ms, "decrement") == Some(1) by {
      assert ms[0].name[0] == 'i';
      FindCallableAt(ms, "decrement", 1);
    }
    assert FindCallable(ms, "reset") == Some(2) by {
      assert ms[0].name[0] == 'i' && ms[1].name[0] == 'd';
      FindCallableAt(ms, "reset", 2);
    }
    assert FindCallable(ms, "get_count") == Some(3) by {
      assert ms[0].name[0] == 'i' && ms[1].name[0] == 'd' && ms[2].name[0] == 'r';
      FindCallableAt(ms, "get_count", 3);
    }
  }

  /** The inherited `set_state` is not marked, so a client cannot call it. */
  lemma SetStateNotCallable()
    ensures FindCallable(Class.methods, "set_state") == None
  {
    var ms := Class.methods;
    assert ms[0].name[0] == 'i' && ms[1].name[0] == 'd' && ms[2].name[0] == 'r' && ms[3].name[0] == 'g';
    assert !ms[4].marked;
  }

  /** A fresh agent counts 0; asking stores `initial_state` and broadcasts it, exactly as
      the first read of the state does. */
  lemma FreshCountIsZero(w: World)
    requires w.cache == Unset && StateWasChanged !in w.store && Healthy(w)
    ensures GetCount(w, []).out == Ok(Val(Int(0)))
    ensures GetCount(w, []).w == GetState(w, Val(Initial)).w
  {
    var g := GetState(w, Val(Initial));
    assert g.out == Ok(Val(Initial)) by { GetStateFreshInitial(w, Initial); }
    assert CountOf(g.out.value, ZeroCount) == Ok(Int(0)) by {
      assert PyTruthy(Val(Initial));
      LiteralCounts();
    }
  }

  /** Reading the count of a cached state changes nothing. */
  lemma GetCountReadOnly(w: World)
    requires w.cache != Unset
    ensures GetCount(w, []).w == w
  {
  }

  /** Once a state has been read whose count is a number, the count moved by the amount is
      stored and returned. */
  lemma ChangeStateFromCount(w: World, v: PyVal, d: Direction, c: int, a: int)
    requires CountOf(v, Initial) == Ok(Int(c))
    ensures ChangeState(w, v, Int(a), d) == StoreCount(w, Int(if d == Up then c + a else c - a), d)
  {
    assert Apply(d, Int(c), Int(a)) == Ok(Int(if d == Up then c + a else c - a));
  }

  /** From a cached state whose count is a number, `increment(a)` and `decrement(a)` store
      and return the count moved by `a`, and broadcast the new state to every socket. */
  lemma ChangeFromCount(w: World, d: Direction, ms: seq<Member>, c: int, a: int)
    requires w.cache == Val(Obj(ms)) && ms != [] && Lookup(ms, "count") == Some(Int(c))
    requires Healthy(w)
    ensures var n := Int(if d == Up then c + a else c - a);
            var st := CountState(n, ActionName(d));
            Change(w, [Int(a)], d)
              == Step(w.(cache := Val(st), store := Persisted(w.store, Dumps(st)),
                         sent := w.sent + Deliveries(w.sockets, Dumps(StateFrame(st)))),
                      Ok(Val(n)))
  {
    var n := Int(if d == Up then c + a else c - a);
    assert CountOf(w.cache, Initial) == Ok(Int(c)) by {
      assert PyTruthy(w.cache);
    }
    assert Change(w, [Int(a)], d) == StoreCount(w, n, d) by {
      ChangeCached(w, d, a);
      ChangeStateFromCount(w, w.cache, d, c, a);
    }
  }

  /** The result of `increment(a)` or `decrement(a)` on a healthy agent whose cached state
      counts `c`. */
  lemma ChangeResult(w: World, d: Direction, c: int, a: int, n: int)
    requires w.cache != Unset && CountOf(w.cache, Initial) == Ok(Int(c)) && Healthy(w)
    requires n == if d == Up then c + a else c - a
    ensures var r := Change(w, [Int(a)], d);
            && r.out == Ok(Val(Int(n))) && r.w.cache == Val(CountState(Int(n), ActionName(d)))
            && Healthy(r.w) && CountOf(r.w.cache, Initial) == Ok(Int(n))
  {
    ChangeCached(w, d, a);
    ChangeStateFromCount(w, w.cache, d, c, a);
    CountStateCount(Int(n), ActionName(d));
  }

  /** With a state already read, `increment(a)` and `decrement(a)` go straight to the count. */
  lemma ChangeCached(w: World, d: Direction, a: int)
    requires w.cache != Unset
    ensures Change(w, [Int(a)], d) == ChangeState(w, w.cache, Int(a), d)
  {
    assert AmountArg(QualName(d), [Int(a)]) == Ok(Int(a));
    assert GetState(w, Val(Initial)) == Step(w, Ok(w.cache));
  }

  /** The state `increment` or `decrement` stores counts the number it returned. */
  lemma CountStateCount(n: Json, action: string)
    ensures CountOf(Val(CountState(n, action)), Initial) == Ok(n)
  {
    assert Lookup(CountState(n, action).members, "count") == Some(n);
  }

  /** `decrement(a)` undoes `increment(a)` on the count. */
  lemma DecrementUndoesIncrement(w: World, c: int, a: int)
    requires w.cache != Unset && CountOf(w.cache, Initial) == Ok(Int(c)) && Healthy(w)
    ensures var w1 := Increment(w, [Int(a)]).w;
            Decrement(w1, [Int(a)]).out == Ok(Val(Int(c)))
  {
    ChangeResult(w, Up, c, a, c + a);
    assert Increment(w, [Int(a)]) == Change(w, [Int(a)], Up);
    DecrementFrom(Increment(w, [Int(a)]).w, c, a);
  }

  /** `decrement(a)` on a state counting `c + a` returns `c`. */
  lemma DecrementFrom(w: World, c: int, a: int)
    requires w.cache != Unset && CountOf(w.cache, Initial) == Ok(Int(c + a)) && Healthy(w)
    ensures Decrement(w, [Int(a)]).out == Ok(Val(Int(c)))
  {
    ChangeResult(w, Down, c + a, a, c);
    assert Decrement(w, [Int(a)]) == Change(w, [Int(a)], Down);
  }

  /** An empty state (`None`, `{}`, 0, ...) counts from 0, so `increment(a)` returns `a`
      and `decrement(a)` returns `-a`. */
  lemma ChangeFromEmptyState(w: World, d: Direction, j: Json, a: int)
    requires w.cache == Val(j) && !Truthy(j) && Healthy(w)
    ensures Change(w, [Int(a)], d).out == Ok(Val(Int(if d == Up then a else -a)))
  {
    assert CountOf(w.cache, Initial) == Ok(Int(0)) by {
      LiteralCounts();
    }
    ChangeResult(w, d, 0, a, if d == Up then a else -a);
  }

  /** A falsy state (None, `{}`, …) counts as 0 for `get_count`, with nothing changed. */
  lemma GetCountFalsy(w: World, j: Json)
    requires w.cache == Val(j) && !Truthy(j)
    ensures GetCount(w, []) == Step(w, Ok(Val(Int(0))))
  {
    assert CountOf(w.cache, ZeroCount) == Ok(Int(0)) by {
      LiteralCounts();
    }
  }

  /** `get_count()` after `increment(a)` or `decrement(a)` on count `c` reads `c ± a`: the
      count that was stored. */
  lemma ChangeThenCount(w: World, d: Direction, ms: seq<Member>, c: int, a: int)
    requires w.cache == Val(Obj(ms)) && ms != [] && Lookup(ms, "count") == Some(Int(c))
    requires Healthy(w)
    ensures GetCount(Change(w, [Int(a)], d).w, []).out == Ok(Val(Int(if d == Up then c + a else c - a)))
  {
    var n := Int(if d == Up then c + a else c - a);
    var w1 := Change(w, [Int(a)], d).w;
    assert w1.cache == Val(CountState(n, ActionName(d))) by {
      ChangeFromCount(w, d, ms, c, a);
    }
    assert CountOf(w1.cache, ZeroCount) == Ok(n) by {
      assert Lookup(CountState(n, ActionName(d)).members, "count") == Some(n);
    }
  }

  /** `reset()` on a healthy agent stores the zero state and returns 0. */
  lemma ResetResult(w: World)
    requires Healthy(w)
    ensures Reset(w, []).out == Ok(Val(Int(0)))
  {
  }

  /** After `reset()` the count is 0 whatever it was. */
  lemma ResetThenCount(w: World)
    requires Healthy(w)
    ensures GetCount(Reset(w, []).w, []).out == Ok(Val(Int(0)))
  {
    ResetResult(w);
    var w1 := Reset(w, []).w;
    assert w1.cache == Val(ResetState);
    assert CountOf(w1.cache, ZeroCount) == Ok(Int(0)) by {
      LiteralCounts();
    }
  }

  /** Too many arguments to `increment` raise before the state is read. */
  lemma IncrementArity(w: World, argv: seq<Json>)
    requires |argv| >= 2
    ensures Increment(w, argv)
         == Step(w, Err("CounterAgent.increment()" + " takes from 1 to 2 positional arguments but "
                        + NatText(|argv| + 1) + " were given"))
  {
  }

  /** Any argument to `reset` raises before anything is stored. */
  lemma ResetArity(w: World, argv: seq<Json>)
    requires |argv| >= 1
    ensures Reset(w, argv)
         == Step(w, Err("CounterAgent.reset()" + " takes 1 positional argument but " + NatText(|argv| + 1) + " were given"))
  {
  }

  /** A count that is a string makes `increment(a)` raise without storing anything. */
  lemma NonNumericCount(w: World, ms: seq<Member>, s: string, a: int)
    requires w.cache == Val(Obj(ms)) && ms != [] && Lookup(ms, "count") == Some(Str(s))
    ensures Increment(w, [Int(a)]) == Step(w, Err(ConcatError("str", "int")))
  {
    assert CountOf(w.cache, Initial) == Ok(Str(s));
  }

  /** A state without a `count` makes every reader raise `KeyError('count')`, whose text is
      the key's repr. */
  lemma MissingCount(w: World, ms: seq<Member>)
    requires w.cache == Val(Obj(ms)) && ms != [] && !HasKey(ms, "count")
    ensures GetCount(w, []) == Step(w, Err(ReprText("count")))
    ensures ReprText("count") == "'" + "count" + "'"
  {
    ReprPlain("count");
  }

  /** The handler registered for `increment` is `increment`. */
  lemma IncrementHandler(w: World, argv: seq<Json>)
    ensures Class.methods[0].run(w, argv) == Increment(w, argv)
  {
  }

  /** The dispatch of an `increment` request: the method's effects, then one reply to the
      caller carrying the request's `id` and the new count. */
  lemma IncrementDispatched(w: World, ws: SocketId, ms: seq<Member>, state: seq<Member>, c: int, a: int)
    requires GetOr(ms, "method", Null) == Str("increment") && GetOr(ms, "args", Arr([])) == Arr([Int(a)])
    requires w.cache == Val(Obj(state)) && state != [] && Lookup(state, "count") == Some(Int(c))
    requires Healthy(w) && ws !in w.broken
    ensures var r1 := Increment(w, [Int(a)]);
            HandleRpc(w, Class, ws, ms)
              == Step(r1.w.(sent := r1.w.sent + [Sent(ws, Dumps(RpcResult(GetOr(ms, "id", Null), Int(c + a))))]), Ok(()))
  {
    Registered();
    ChangeFromCount(w, Up, state, c, a);
    var r1 := Increment(w, [Int(a)]);
    assert r1.out == Ok(Val(Int(c + a))) && ws !in r1.w.broken;
    IncrementHandler(w, [Int(a)]);
    RpcSuccess(w, Class, ws, ms, 0, [Int(a)], r1.w, Int(c + a));
  }

  /** An RPC frame `{"type": "rpc", "id": i, "method": "increment", "args": [a]}` on a
      counter with count `c`: every socket (the caller included) gets the new state, then
      the caller gets the reply carrying `i` and `c + a`. */
  lemma IncrementOverRpc(w: World, ws: SocketId, t: string, ms: seq<Member>, state: seq<Member>, c: int, a: int)
    requires Loads(t) == Some(Obj(ms))
    requires GetOr(ms, "type", Null) == Str(Rpc) && GetOr(ms, "method", Null) == Str("increment")
    requires GetOr(ms, "args", Arr([])) == Arr([Int(a)])
    requires w.cache == Val(Obj(state)) && state != [] && Lookup(state, "count") == Some(Int(c))
    requires Healthy(w) && ws !in w.broken
    ensures var n := CountState(Int(c + a), "increment");
            var r := WebSocketMessage(w, Class, ws, Text(t));
            && r.out == Ok(Handled)
            && r.w.cache == Val(n)
            && r.w.sent == w.sent + Deliveries(w.sockets, Dumps(StateFrame(n)))
                           + [Sent(ws, Dumps(RpcResult(GetOr(ms, "id", Null), Int(c + a))))]
  {
    IncrementDispatched(w, ws, ms, state, c, a);
    ChangeFromCount(w, Up, state, c, a);
    var h := HandleRpc(w, Class, ws, ms);
    assert WebSocketMessage(w, Class, ws, Text(t)) == Step(h.w, Ok(Handled));
  }
}
