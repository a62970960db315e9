/** `ts_type_from_schema` of the OpenAPI flattener: a JSON Schema is rendered as a compact
    TypeScript-like type. A top-level `$ref` is dereferenced first; below the depth limit
    only the type name is kept; the combinators come first, then `const` and `enum`, then
    arrays, objects and primitive types, and a schema without `type` is guessed from its
    keys. Non-dict schemas make the Python code raise, which is an `Err` here. */
module TsTypes {
  import opened Results
  import opened Text
  import opened Json
  import opened JsonCodec
  import opened PyValues
  import Deref

  /** Python gives up on the endless re-call `{"type": "array", **s}` makes when `s` holds
      an explicit `"type": null`. */
  const RecursionError := "maximum recursion depth exceeded"

  /** The primitive type names rendered as themselves (`integer` becomes `number`). */
  const Primitives: set<string> := {"string", "number", "integer", "boolean", "null"}

  // ---------------------------------------------------------------- termination measure

  /** The number of values inside `j`, itself included. */
  function W(j: Json): nat
    decreases j
  {
    match j
    case Arr(xs) => 1 + WItems(xs)
    case Obj(ms) => 1 + WMembers(ms)
    case _ => 1
  }

  function WItems(xs: seq<Json>): nat
    decreases xs
  {
    if xs == [] then 0 else W(xs[0]) + WItems(xs[1..])
  }

  function WMembers(ms: seq<Member>): nat
    decreases ms
  {
    if ms == [] then 0 else W(ms[0].value) + WMembers(ms[1..])
  }

  /** A schema that still holds a `$ref` ranks above every dereferenced one: following
      references may make a schema larger, but only once. */
  function Rank(j: Json): nat {
    if Deref.Resolved(j) then 0 else 1
  }

  // ---------------------------------------------------------------- ts_type_from_schema

  /** `ts_type_from_schema(s, doc, depth, max_depth)`. */
  function TsType(s: Json, doc: Json, depth: int, maxDepth: int): (r: Result<string>)
    ensures s == Null ==> r == Ok("unknown")
    ensures s != Null && !s.Obj? ==> r.Err?
    decreases Rank(s), W(s), 4, 0
  {
    if s == Null then Ok("unknown")
    else
      var isRef :- PyIn(Deref.RefKey, s);
      if isRef then
        var s2 :- Deref.Deref(s, doc, {});
        DerefRanks(s, doc, s2);
        TsBody(s2, doc, depth, maxDepth)
      else TsBody(s, doc, depth, maxDepth)
  }

  /** Everything after the dereferencing step; only a dict gets past `s.get` and `s[...]`. */
  function TsBody(s: Json, doc: Json, depth: int, maxDepth: int): (r: Result<string>)
    ensures !s.Obj? ==> r.Err?
    decreases Rank(s), W(s), 3, 0
  {
    match s
    case Obj(ms) =>
      if depth >= maxDepth then Capped(ms, doc, depth, maxDepth)
      else if HasKey(ms, "oneOf") then Alternatives(ms, "oneOf", " | ", doc, depth, maxDepth)
      else if HasKey(ms, "anyOf") then Alternatives(ms, "anyOf", " | ", doc, depth, maxDepth)
      else if HasKey(ms, "allOf") then Alternatives(ms, "allOf", " & ", doc, depth, maxDepth)
      else if HasKey(ms, "const") then Ok(Dumps(Lookup(ms, "const").value))
      else if HasKey(ms, "enum") then
        var xs :- Iterate(Lookup(ms, "enum").value);
        Ok(Join(DumpsAll(xs), " | "))
      else Typed(ms, doc, depth, maxDepth)
    case _ => if depth >= maxDepth then Err(NoAttribute(s, "get")) else NonDictBody(s)
  }

  /** A non-dict schema above the depth limit: `"oneOf" in s` raises for a scalar; a string
      or list that contains one of the consulted names fails on `s[name]`, any other on
      `s.get`. */
  function NonDictBody(s: Json): (r: Result<string>)
    requires !s.Obj?
    ensures r.Err?
    ensures s.Null? || s.Bool? || s.Int? ==> r == PyIn("oneOf", s).PropagateFailure()
  {
    var _ :- PyIn("oneOf", s);
    if exists k | k in Consulted :: PyIn(k, s) == Ok(true) then
      Err(if s.Str? then "string indices must be integers, not 'str'" else "list indices must be integers or slices, not str")
    else Err(NoAttribute(s, "get"))
  }

  /** The keys looked up with `s[...]` after an `in` test. */
  const Consulted: set<string> := {"oneOf", "anyOf", "allOf", "const", "enum"}

  /** At or below the depth limit only the `type` is kept; an array keeps its item type,
      taken at the same depth. */
  function Capped(ms: seq<Member>, doc: Json, depth: int, maxDepth: int): (r: Result<string>)
    decreases Rank(Obj(ms)), W(Obj(ms)), 1, 0
  {
    var t := GetOr(ms, "type", Null);
    if t == Str("array") then
      var items := GetOr(ms, "items", Obj([]));
      ChildBound(ms, "items", Obj([]));
      ArrayOf(items, doc, depth, maxDepth)
    else if t.Str? then Ok(t.s)
    else Ok("object")
  }

  /** `<item type>[]`. */
  function ArrayOf(items: Json, doc: Json, depth: int, maxDepth: int): (r: Result<string>)
    ensures TsType(items, doc, depth, maxDepth).Ok? ==> r == Ok(TsType(items, doc, depth, maxDepth).value + "[]")
    ensures r.Err? <==> TsType(items, doc, depth, maxDepth).Err?
    decreases Rank(items), W(items), 5, 0
  {
    var it :- TsType(items, doc, depth, maxDepth);
    Ok(it + "[]")
  }

  /** `sep.join(...)` over the schemas a combinator lists, each one level deeper. */
  function Alternatives(ms: seq<Member>, key: string, sep: string, doc: Json, depth: int, maxDepth: int): (r: Result<string>)
    requires HasKey(ms, key)
    decreases Rank(Obj(ms)), W(Obj(ms)), 1, 0
  {
    var v := Lookup(ms, key).value;
    var xs :- Iterate(v);
    LookupBound(ms, key);
    IterateBound(v, xs, Rank(Obj(ms)), W(Obj(ms)));
    var ts :- TsList(xs, doc, depth + 1, maxDepth, Rank(Obj(ms)), W(Obj(ms)));
    Ok(Join(ts, sep))
  }

  /** The types of `xs`, in order; the first failure is the one raised. */
  function TsList(xs: seq<Json>, doc: Json, depth: int, maxDepth: int, ghost rank: nat, ghost bound: nat): (r: Result<seq<string>>)
    requires forall i :: 0 <= i < |xs| ==> Rank(xs[i]) <= rank && W(xs[i]) < bound
    ensures r.Ok? ==> |r.value| == |xs|
    ensures r.Ok? ==> forall i :: 0 <= i < |xs| ==> TsType(xs[i], doc, depth, maxDepth) == Ok(r.value[i])
    decreases rank, bound, 0, |xs|
  {
    if xs == [] then Ok([])
    else
      var t :- TsType(xs[0], doc, depth, maxDepth);
      var rest :- TsList(xs[1..], doc, depth, maxDepth, rank, bound);
      Ok([t] + rest)
  }

  /** `json.dumps` of every value. */
  function DumpsAll(xs: seq<Json>): (r: seq<string>)
    ensures |r| == |xs| && forall i :: 0 <= i < |xs| ==> r[i] == Dumps(xs[i])
  {
    seq(|xs|, i requires 0 <= i < |xs| => Dumps(xs[i]))
  }

  /** After the combinators, `const` and `enum`: arrays, objects, primitives, inference. */
  function Typed(ms: seq<Member>, doc: Json, depth: int, maxDepth: int): (r: Result<string>)
    decreases Rank(Obj(ms)), W(Obj(ms)), 2, 0
  {
    var t := GetOr(ms, "type", Null);
    var fmt := GetOr(ms, "format", Null);
    if t == Str("array") then
      ChildBound(ms, "items", Obj([]));
      ArrayOf(GetOr(ms, "items", Obj([])), doc, depth + 1, maxDepth)
    else if t == Str("object") || HasKey(ms, "properties") || HasKey(ms, "additionalProperties") then
      ObjectType(ms, doc, depth, maxDepth)
    else if t.Str? && t.s in Primitives then
      var base := if t.s == "integer" then "number" else t.s;
      Ok(if Truthy(fmt) then base + " /* " + PyStr(fmt) + " */" else base)
    else if t == Null then
      if ms == [] then Ok("any")
      else if HasKey(ms, "pattern") || HasKey(ms, "minLength") || HasKey(ms, "maxLength") then Ok("string")
      else if HasKey(ms, "items") then
        if HasKey(ms, "type") then Err(RecursionError)
        else
          ChildBound(ms, "items", Obj([]));
          ArrayOf(GetOr(ms, "items", Obj([])), doc, depth + 1, maxDepth)
      else Ok("any")
    else Ok("any")
  }

  // ---------------------------------------------------------------- objects

  /** The object branch: one line per property, then an index signature when
      `additionalProperties` is a dict, between braces. */
  function ObjectType(ms: seq<Member>, doc: Json, depth: int, maxDepth: int): (r: Result<string>)
    requires GetOr(ms, "type", Null) == Str("object") || HasKey(ms, "properties") || HasKey(ms, "additionalProperties")
    ensures r.Ok? ==> StartsWith(r.value, "{\n") && r.value[|r.value| - 1] == '}'
    decreases Rank(Obj(ms)), W(Obj(ms)), 1, 0
  {
    var props := Or(GetOr(ms, "properties", Obj([])), Obj([]));
    var required :- RequiredSet(Or(GetOr(ms, "required", Arr([])), Arr([])));
    if !props.Obj? then Err(NoAttribute(props, "items"))
    else
      PropsBound(ms);
      var lines :- PropLines(props.members, required, doc, depth, maxDepth, Rank(Obj(ms)), W(Obj(ms)));
      var addl := GetOr(ms, "additionalProperties", Bool(false));
      ChildBound(ms, "additionalProperties", Bool(false));
      var extra :- IndexSignature(addl, doc, depth, maxDepth);
      Ok(Braced(Join(lines + extra, "\n")))
  }

  /** `"{\n" + inner + ("\n" if inner else "") + "}"`. */
  function Braced(inner: string): (r: string)
    ensures StartsWith(r, "{\n") && r[|r| - 1] == '}'
  {
    "{\n" + inner + (if inner != "" then "\n" else "") + "}"
  }

  /** `set(required)`: what iterating the value visits; every element must be hashable. */
  function RequiredSet(v: Json): (r: Result<seq<Json>>)
    ensures r.Ok? ==> Iterate(v) == r && forall i :: 0 <= i < |r.value| ==> Hashable(r.value[i])
    ensures Iterate(v).Err? ==> r.Err?
  {
    var xs :- Iterate(v);
    match FirstUnhashable(xs)
    case Some(x) => Err("unhashable type: '" + TypeName(x) + "'")
    case None => Ok(xs)
  }

  function FirstUnhashable(xs: seq<Json>): (r: Option<Json>)
    ensures r.None? <==> forall i :: 0 <= i < |xs| ==> Hashable(xs[i])
    ensures r.Some? ==> r.value in xs && !Hashable(r.value)
  {
    if xs == [] then None
    else if !Hashable(xs[0]) then Some(xs[0])
    else
      var r := FirstUnhashable(xs[1..]);
      assert forall i :: 1 <= i < |xs| ==> xs[i] == xs[1..][i - 1];
      r
  }

  /** `[key: string]: T;` when `additionalProperties` is a dict, nothing otherwise. */
  function IndexSignature(addl: Json, doc: Json, depth: int, maxDepth: int): (r: Result<seq<string>>)
    ensures !addl.Obj? ==> r == Ok([])
    ensures addl.Obj? && TsType(addl, doc, depth + 1, maxDepth).Ok? ==>
              r == Ok(["  [key: string]: " + TsType(addl, doc, depth + 1, maxDepth).value + ";"])
    decreases Rank(addl), W(addl), 5, 0
  {
    if addl.Obj? then
      var t :- TsType(addl, doc, depth + 1, maxDepth);
      Ok(["  [key: string]: " + t + ";"])
    else Ok([])
  }

  /** The property lines, skipping names that start with `x-`. */
  function PropLines(props: seq<Member>, required: seq<Json>, doc: Json, depth: int, maxDepth: int, ghost rank: nat, ghost bound: nat): (r: Result<seq<string>>)
    requires forall i :: 0 <= i < |props| ==> Rank(props[i].value) <= rank && W(props[i].value) < bound
    ensures r.Ok? ==> |r.value| <= |props|
    decreases rank, bound, 0, |props|
  {
    if props == [] then Ok([])
    else if StartsWith(props[0].key, "x-") then PropLines(props[1..], required, doc, depth, maxDepth, rank, bound)
    else
      var line :- PropLine(props[0].key, props[0].value, required, doc, depth, maxDepth);
      var rest :- PropLines(props[1..], required, doc, depth, maxDepth, rank, bound);
      Ok([line] + rest)
  }

  /** One property: `  name?: type; // description (format) (default: v)`. The `?` marks a
      property that `required` does not list. */
  function PropLine(name: string, sub: Json, required: seq<Json>, doc: Json, depth: int, maxDepth: int): (r: Result<string>)
    ensures r.Ok? ==> (TsType(sub, doc, depth + 1, maxDepth).Ok? && sub.Obj? &&
                       StartsWith(r.value, "  " + name + OptMark(name, required) + ": " + TsType(sub, doc, depth + 1, maxDepth).value + ";"))
    decreases Rank(sub), W(sub), 5, 0
  {
    var dtype :- TsType(sub, doc, depth + 1, maxDepth);
    if !sub.Obj? then Err(NoAttribute(sub, "get"))
    else
      var comment :- PropComment(sub.members);
      var head := "  " + name + OptMark(name, required) + ": " + dtype + ";";
      assert (head + comment)[..|head|] == head;
      Ok(head + comment)
  }

  /** `""` for a required property, `"?"` otherwise. */
  function OptMark(name: string, required: seq<Json>): string {
    if Str(name) in required then "" else "?"
  }

  /** The trailing ` // ...` comment of a property line, empty when there is nothing to say. */
  function PropComment(sms: seq<Member>): (r: Result<string>)
    ensures r.Ok? && r.value != [] ==> StartsWith(r.value, " // ")
  {
    var d0 := Or(Or(GetOr(sms, "description", Null), GetOr(sms, "title", Null)), Str(""));
    if !d0.Str? then Err(NoAttribute(d0, "strip"))
    else
      var enumVals := GetOr(sms, "enum", Null);
      var desc :- if Truthy(enumVals) && Strip(d0.s) == "" then EnumNote(enumVals) else Ok(Strip(d0.s));
      var fmt := GetOr(sms, "format", Null);
      var fmtNote := if Truthy(fmt) then " (" + PyStr(fmt) + ")" else "";
      var default := GetOr(sms, "default", Null);
      var defaultNote := if default !in {Null, Obj([]), Arr([])} then " (default: " + Dumps(default) + ")" else "";
      var bits := NonEmpty([Strip(ReplaceAll(desc, "\n", " ")), Strip(fmtNote), Strip(defaultNote)]);
      Ok(if bits != [] then " // " + Join(bits, " ") else "")
  }

  /** `"one of " + ", ".join(map(str, values))`. */
  function EnumNote(values: Json): (r: Result<string>)
    ensures r.Ok? ==> StartsWith(r.value, "one of ")
    ensures r.Err? <==> Iterate(values).Err?
  {
    var xs :- Iterate(values);
    Ok("one of " + Join(StrAll(xs), ", "))
  }

  function StrAll(xs: seq<Json>): (r: seq<string>)
    ensures |r| == |xs| && forall i :: 0 <= i < |xs| ==> r[i] == PyStr(xs[i])
  {
    seq(|xs|, i requires 0 <= i < |xs| => PyStr(xs[i]))
  }

  /** The non-empty strings, in order. */
  function NonEmpty(xs: seq<string>): (r: seq<string>)
    ensures forall i :: 0 <= i < |r| ==> r[i] != "" && r[i] in xs
    ensures forall i :: 0 <= i < |xs| && xs[i] != "" ==> xs[i] in r
  {
    if xs == [] then []
    else if xs[0] == "" then NonEmpty(xs[1..])
    else [xs[0]] + NonEmpty(xs[1..])
  }

  // ---------------------------------------------------------------- termination facts

  /** Dereferencing yields a reference-free schema, and leaves a reference-free one alone. */
  lemma DerefRanks(s: Json, doc: Json, s2: Json)
    requires Deref.Deref(s, doc, {}) == Ok(s2)
    ensures Rank(s2) == 0
    ensures Rank(s) == 0 ==> s2 == s
  {
    if Rank(s) == 0 {
      Deref.ResolvedFixed(s, doc, {});
    }
  }

  lemma {:induction false} WMemberBound(ms: seq<Member>, i: nat)
    requires i < |ms|
    ensures W(ms[i].value) <= WMembers(ms)
  {
    if i > 0 {
      WMemberBound(ms[1..], i - 1);
    }
  }

  lemma {:induction false} WItemBound(xs: seq<Json>, i: nat)
    requires i < |xs|
    ensures W(xs[i]) <= WItems(xs)
  {
    if i > 0 {
      WItemBound(xs[1..], i - 1);
    }
  }

  /** A member value is smaller than its object and has no more references. */
  lemma LookupBound(ms: seq<Member>, k: string)
    requires HasKey(ms, k)
    ensures W(Lookup(ms, k).value) < W(Obj(ms)) && Rank(Lookup(ms, k).value) <= Rank(Obj(ms))
  {
    var i := KeyIndex(ms, k);
    WMemberBound(ms, i);
  }

  /** `s.get(k, default)` with a one-value default is smaller than a non-empty `s`. */
  lemma ChildBound(ms: seq<Member>, k: string, default: Json)
    requires ms != [] && W(default) == 1 && Rank(default) == 0
    ensures W(GetOr(ms, k, default)) < W(Obj(ms)) && Rank(GetOr(ms, k, default)) <= Rank(Obj(ms))
  {
    if HasKey(ms, k) {
      LookupBound(ms, k);
    } else {
      assert W(Obj(ms)) >= 1 + W(ms[0].value);
    }
  }

  /** The properties iterated by the object branch are smaller than the schema. */
  lemma PropsBound(ms: seq<Member>)
    requires Or(GetOr(ms, "properties", Obj([])), Obj([])).Obj?
    ensures var props := Or(GetOr(ms, "properties", Obj([])), Obj([])).members;
            forall i :: 0 <= i < |props| ==> Rank(props[i].value) <= Rank(Obj(ms)) && W(props[i].value) < W(Obj(ms))
  {
    var props := Or(GetOr(ms, "properties", Obj([])), Obj([]));
    if props.members != [] {
      assert HasKey(ms, "properties") && props == Lookup(ms, "properties").value;
      LookupBound(ms, "properties");
      forall i | 0 <= i < |props.members|
        ensures Rank(props.members[i].value) <= Rank(Obj(ms)) && W(props.members[i].value) < W(Obj(ms))
      {
        WMemberBound(props.members, i);
      }
    }
  }

  /** What iterating a value visits is smaller than anything larger than the value. */
  lemma IterateBound(v: Json, xs: seq<Json>, rank: nat, bound: nat)
    requires Iterate(v) == Ok(xs) && Rank(v) <= rank && W(v) < bound
    ensures forall i :: 0 <= i < |xs| ==> Rank(xs[i]) <= rank && W(xs[i]) < bound
  {
    if v.Arr? {
      forall i | 0 <= i < |xs| ensures Rank(xs[i]) <= rank && W(xs[i]) < bound {
        WItemBound(xs, i);
      }
    }
  }
}
