/** `build_entries` of the OpenAPI flattener: one entry per operation (path and HTTP method)
    of a specification, holding a content text and metadata — the endpoint, the upper-case
    method, the cleaned summary and description, the sorted parameter lines and the rendered
    request body, each optional key present only when it is not empty. */
module Entries {
  import opened Results
  import opened Text
  import opened Json
  import opened PyValues
  import Clean
  import Extract
  import Sorting
  import Params

  /** `HTTP_METHODS`. The source keeps them in a Python set, whose iteration order depends on
      string hashing; the order is therefore a parameter of the model (see `IsMethodOrder`). */
  const HttpMethods: seq<string> := ["get", "put", "post", "delete", "patch", "options", "head", "trace"]

  /** `methods` is an order in which the set `HTTP_METHODS` may be visited. */
  predicate IsMethodOrder(methods: seq<string>) {
    multiset(methods) == multiset(HttpMethods)
  }

  /** The `metadata` dict; an optional key is `Some` exactly when the dict has it. */
  datatype Metadata = Metadata(
    endpoint: string,
    httpMethod: string,
    summary: Option<string>,
    description: Option<string>,
    parameters: Option<seq<string>>,
    requestBody: Option<string>)

  datatype Entry = Entry(content: string, metadata: Metadata)

  /** An optional string key: present only when the text is not empty. */
  function NonEmpty(s: string): (r: Option<string>)
    ensures r.Some? <==> s != []
    ensures r.Some? ==> r.value == s
  {
    if s == [] then None else Some(s)
  }

  // ---------------------------------------------------------------- parameters

  /** `[deref_parameter(p, spec) for p in ps]`. */
  function DerefAll(ps: seq<Json>, spec: Json): (r: Result<seq<Json>>)
    ensures r.Ok? <==> forall i :: 0 <= i < |ps| ==> Extract.DerefParameter(ps[i], spec).Ok?
    ensures r.Ok? ==> |r.value| == |ps|
    ensures r.Ok? ==> forall i :: 0 <= i < |ps| ==> Extract.DerefParameter(ps[i], spec) == Ok(r.value[i])
    decreases |ps|
  {
    if ps == [] then Ok([])
    else
      var p :- Extract.DerefParameter(ps[0], spec);
      var rest :- DerefAll(ps[1..], spec);
      Ok([p] + rest)
  }

  /** The dereferenced `parameters` of a path item or an operation, or `[]` when it has none. */
  function ParamList(ms: seq<Member>, spec: Json): (r: Result<seq<Json>>)
    ensures !HasKey(ms, "parameters") ==> r == Ok([])
    ensures HasKey(ms, "parameters") ==>
      (r.Ok? <==> Iterate(GetOr(ms, "parameters", Null)).Ok? && DerefAll(Iterate(GetOr(ms, "parameters", Null)).value, spec).Ok?)
  {
    if !HasKey(ms, "parameters") then Ok([])
    else
      var raw :- Iterate(GetOr(ms, "parameters", Null));
      DerefAll(raw, spec)
  }

  /** Does `if p.get("name"):` keep this merged value? */
  predicate Named(p: Json) {
    p.Obj? && Truthy(GetOr(p.members, "name", Null))
  }

  /** The values that pass `if p.get("name"):`, in order. */
  function NamedOnly(ps: seq<Json>): (r: seq<Json>)
    ensures |r| <= |ps|
  {
    if ps == [] then []
    else (if Named(ps[0]) then [ps[0]] else []) + NamedOnly(ps[1..])
  }

  /** The loop over `merged.values()`: `f(p)` for every value with a truthy name, in order;
      a value that is not a dict raises at `p.get`. */
  function ForNamed(f: Json -> Result<string>, ps: seq<Json>): (r: Result<seq<string>>)
    ensures r.Ok? ==> forall i :: 0 <= i < |ps| ==> ps[i].Obj?
    ensures r.Ok? ==> |r.value| == |NamedOnly(ps)|
    ensures r.Ok? ==> forall i :: 0 <= i < |r.value| ==> f(NamedOnly(ps)[i]) == Ok(r.value[i])
    decreases |ps|
  {
    if ps == [] then Ok([])
    else if !ps[0].Obj? then Err(NoAttribute(ps[0], "get"))
    else if Named(ps[0]) then
      var line :- f(ps[0]);
      var rest :- ForNamed(f, ps[1..]);
      assert NamedOnly(ps) == [ps[0]] + NamedOnly(ps[1..]);
      ForNamedCons(f, ps[0], line, NamedOnly(ps[1..]), rest);
      Ok([line] + rest)
    else
      assert NamedOnly(ps) == NamedOnly(ps[1..]);
      ForNamed(f, ps[1..])
  }

  /** A line for the first named value, in front of the lines for the rest. */
  lemma ForNamedCons(f: Json -> Result<string>, p: Json, line: string, named: seq<Json>, rest: seq<string>)
    requires f(p) == Ok(line) && |rest| == |named|
    requires forall i :: 0 <= i < |rest| ==> f(named[i]) == Ok(rest[i])
    ensures forall i :: 0 <= i < |rest| + 1 ==> f(([p] + named)[i]) == Ok(([line] + rest)[i])
  {
    forall i | 0 <= i < |rest| + 1
      ensures f(([p] + named)[i]) == Ok(([line] + rest)[i])
    {
      if i > 0 {
        assert ([p] + named)[i] == named[i - 1];
        assert ([line] + rest)[i] == rest[i - 1];
      }
    }
  }

  /** `summarize_parameter` of every named value, in order. */
  function NamedLines(ps: seq<Json>, spec: Json): (r: Result<seq<string>>)
    ensures r.Ok? ==> forall i :: 0 <= i < |ps| ==> ps[i].Obj?
    ensures r.Ok? ==> |r.value| == |NamedOnly(ps)|
    ensures r.Ok? ==> forall i :: 0 <= i < |r.value| ==>
      Extract.SummarizeParameter(NamedOnly(ps)[i], spec) == Ok(r.value[i])
  {
    ForNamed(p => Extract.SummarizeParameter(p, spec), ps)
  }

  /** The parameter lines of an operation before sorting: its parameters merged over the
      path's by `(name, in)`, then the named ones summarised in merged order. */
  function ParameterLines(pathParams: seq<Json>, opParams: seq<Json>, spec: Json): (r: Result<seq<string>>)
    ensures r.Ok? ==> Params.Merge(pathParams + opParams).Ok?
    ensures r.Ok? ==> |r.value| == |NamedOnly(Params.Values(Params.Merge(pathParams + opParams).value))|
  {
    var merged :- Params.Merge(pathParams + opParams);
    NamedLines(Params.Values(merged), spec)
  }

  // ---------------------------------------------------------------- one operation

  /** `clean_text(op.get(k) or "")`. */
  function TextOf(om: seq<Member>, k: string): (r: Result<string>)
    ensures !HasKey(om, k) ==> r == Ok("")
    ensures r.Ok? ==> Clean.IsClean(r.value)
  {
    Clean.CleanTextOf(Or(GetOr(om, k, Null), Str("")))
  }

  /** The cleaned summary, description and operationId of an operation. */
  datatype Texts = Texts(summary: string, description: string, operationId: string)

  function OpTexts(om: seq<Member>): (r: Result<Texts>)
    ensures r.Ok? <==> TextOf(om, "summary").Ok? && TextOf(om, "description").Ok? && TextOf(om, "operationId").Ok?
    ensures r.Ok? ==> r.value == Texts(TextOf(om, "summary").value, TextOf(om, "description").value, TextOf(om, "operationId").value)
  {
    var s :- TextOf(om, "summary");
    var d :- TextOf(om, "description");
    var o :- TextOf(om, "operationId");
    Ok(Texts(s, d, o))
  }

  /** The entry of operation `op` under `verb` of the path item at `path`, whose own
      parameters are `pathParams`. */
  function OperationEntry(path: string, verb: string, op: Json, pathParams: seq<Json>, spec: Json, maxDepth: int): (r: Result<Entry>)
    ensures !op.Obj? ==> r.Err?
    ensures r.Ok? ==> op.Obj? && OpTexts(op.members).Ok?
    ensures r.Ok? ==> r.value.metadata.endpoint == path && r.value.metadata.httpMethod == Upper(verb)
    // the content is the summary, else the description
    ensures r.Ok? ==> Clean.IsClean(r.value.content)
    ensures r.Ok? ==> (r.value.content ==
      match (r.value.metadata.summary, r.value.metadata.description)
      case (Some(s), _) => s
      case (None, Some(d)) => d
      case (None, None) => "")
    // the description is kept when it is not empty; the summary falls back on the operationId
    ensures r.Ok? ==> r.value.metadata.description == NonEmpty(OpTexts(op.members).value.description)
    ensures r.Ok? ==> var t := OpTexts(op.members).value;
      r.value.metadata.summary == (if t.summary != "" then Some(t.summary)
        else if t.description == "" then NonEmpty(t.operationId) else None)
    // the parameter lines, sorted
    ensures r.Ok? ==> ParamList(op.members, spec).Ok? && ParameterLines(pathParams, ParamList(op.members, spec).value, spec).Ok?
    ensures r.Ok? ==> var lines := ParameterLines(pathParams, ParamList(op.members, spec).value, spec).value;
      && (r.value.metadata.parameters.Some? <==> lines != [])
      && (r.value.metadata.parameters.Some? ==>
            Sorting.Sorted(r.value.metadata.parameters.value) && multiset(r.value.metadata.parameters.value) == multiset(lines))
    // the request body
    ensures r.Ok? ==> Extract.ExtractRequestBody(op, spec, maxDepth).Ok?
    ensures r.Ok? ==> r.value.metadata.requestBody == NonEmpty(Extract.ExtractRequestBody(op, spec, maxDepth).value)
  {
    if !op.Obj? then Err(NoAttribute(op, "get"))
    else
      var om := op.members;
      var t :- OpTexts(om);
      var summary := if t.summary == "" && t.description == "" && t.operationId != "" then t.operationId else t.summary;
      var content := if summary != "" then summary else t.description;
      var opParams :- ParamList(om, spec);
      var lines :- ParameterLines(pathParams, opParams, spec);
      var sorted := Sorting.Sort(lines);
      var body :- Extract.ExtractRequestBody(op, spec, maxDepth);
      Ok(Entry(content, Metadata(
        path, Upper(verb), NonEmpty(summary), NonEmpty(t.description),
        if sorted == [] then None else Some(sorted), NonEmpty(body))))
  }

  // ---------------------------------------------------------------- a path item

  /** The methods of `methods` the path item has, in that order. */
  function Present(ms: seq<Member>, methods: seq<string>): (r: seq<string>)
    ensures |r| <= |methods|
  {
    if methods == [] then []
    else (if HasKey(ms, methods[0]) then [methods[0]] else []) + Present(ms, methods[1..])
  }

  /** The inner `for method in HTTP_METHODS` loop: an entry for each method the path item
      has, in the order visited. */
  function MethodEntries(path: string, ms: seq<Member>, pathParams: seq<Json>, spec: Json, maxDepth: int, methods: seq<string>): (r: Result<seq<Entry>>)
    ensures r.Ok? ==> |r.value| == |Present(ms, methods)|
    ensures r.Ok? ==> forall i :: 0 <= i < |r.value| ==>
      OperationEntry(path, Present(ms, methods)[i], GetOr(ms, Present(ms, methods)[i], Null), pathParams, spec, maxDepth) == Ok(r.value[i])
  {
    MapAll((m: string) => OperationEntry(path, m, GetOr(ms, m, Null), pathParams, spec, maxDepth), Present(ms, methods))
  }

  /** The body of the outer loop for one `(path, path_item)`: an item that is not a dict
      gives no entry. */
  function PathItemEntries(path: string, item: Json, spec: Json, maxDepth: int, methods: seq<string>): (r: Result<seq<Entry>>)
    ensures !item.Obj? ==> r == Ok([])
    ensures item.Obj? && r.Ok? ==> |r.value| == |Present(item.members, methods)|
    ensures item.Obj? && r.Ok? ==> forall i :: 0 <= i < |r.value| ==>
      r.value[i].metadata.endpoint == path && r.value[i].metadata.httpMethod == Upper(Present(item.members, methods)[i])
    // each entry is the one `OperationEntry` builds for its method, with the item's own parameters
    ensures item.Obj? && r.Ok? ==> ParamList(item.members, spec).Ok?
    ensures item.Obj? && r.Ok? ==> forall i :: 0 <= i < |r.value| ==>
      OperationEntry(path, Present(item.members, methods)[i], GetOr(item.members, Present(item.members, methods)[i], Null),
                     ParamList(item.members, spec).value, spec, maxDepth) == Ok(r.value[i])
  {
    if !item.Obj? then Ok([])
    else
      var pathParams :- ParamList(item.members, spec);
      MethodEntries(path, item.members, pathParams, spec, maxDepth, methods)
  }

  // ---------------------------------------------------------------- the specification

  /** An operation: a path, one of its methods, and the members of the path item it is in. */
  datatype Operation = Operation(path: string, verb: string, item: seq<Member>)

  /** The operations of the path items, in the order `build_entries` visits them. */
  function Operations(items: seq<Member>, methods: seq<string>): (r: seq<Operation>)
    decreases |items|
  {
    if items == [] then []
    else
      var here := if items[0].value.Obj? then OperationsAt(items[0].key, items[0].value.members, Present(items[0].value.members, methods)) else [];
      here + Operations(items[1..], methods)
  }

  function OperationsAt(path: string, item: seq<Member>, ms: seq<string>): (r: seq<Operation>)
    ensures |r| == |ms|
    ensures forall i :: 0 <= i < |ms| ==> r[i] == Operation(path, ms[i], item)
  {
    if ms == [] then [] else [Operation(path, ms[0], item)] + OperationsAt(path, item, ms[1..])
  }

  /** `e` is the entry `OperationEntry` builds for `o`: the operation object under its method,
      with the parameters of its path item. */
  predicate Built(e: Entry, o: Operation, spec: Json, maxDepth: int) {
    && ParamList(o.item, spec).Ok?
    && OperationEntry(o.path, o.verb, GetOr(o.item, o.verb, Null), ParamList(o.item, spec).value, spec, maxDepth) == Ok(e)
  }

  /** `es` are the entries built for `ops`, one for one. */
  predicate BuiltAll(es: seq<Entry>, ops: seq<Operation>, spec: Json, maxDepth: int) {
    && |es| == |ops|
    && forall i :: 0 <= i < |es| ==> Built(es[i], ops[i], spec, maxDepth)
  }

  lemma BuiltAppend(es: seq<Entry>, ops: seq<Operation>, es2: seq<Entry>, ops2: seq<Operation>, spec: Json, maxDepth: int)
    requires BuiltAll(es, ops, spec, maxDepth) && BuiltAll(es2, ops2, spec, maxDepth)
    ensures BuiltAll(es + es2, ops + ops2, spec, maxDepth)
  {
    forall i | 0 <= i < |es + es2|
      ensures Built((es + es2)[i], (ops + ops2)[i], spec, maxDepth)
    {
      if i >= |es| {
        assert (es + es2)[i] == es2[i - |es|];
        assert (ops + ops2)[i] == ops2[i - |es|];
      }
    }
  }

  /** The outer `for path, path_item in paths.items()` loop. */
  function PathEntries(items: seq<Member>, spec: Json, maxDepth: int, methods: seq<string>): (r: Result<seq<Entry>>)
    ensures r.Ok? ==> |r.value| == |Operations(items, methods)|
    ensures r.Ok? ==> forall i :: 0 <= i < |r.value| ==>
      r.value[i].metadata.endpoint == Operations(items, methods)[i].path &&
      r.value[i].metadata.httpMethod == Upper(Operations(items, methods)[i].verb)
    ensures r.Ok? ==> BuiltAll(r.value, Operations(items, methods), spec, maxDepth)
    decreases |items|
  {
    if items == [] then Ok([])
    else
      var here :- PathItemEntries(items[0].key, items[0].value, spec, maxDepth, methods);
      var rest :- PathEntries(items[1..], spec, maxDepth, methods);
      var item := items[0].value;
      var hereOps := if item.Obj? then OperationsAt(items[0].key, item.members, Present(item.members, methods)) else [];
      assert Operations(items, methods) == hereOps + Operations(items[1..], methods);
      assert Labels(here, hereOps);
      LabelsAppend(here, hereOps, rest, Operations(items[1..], methods));
      assert BuiltAll(here, hereOps, spec, maxDepth);
      BuiltAppend(here, hereOps, rest, Operations(items[1..], methods), spec, maxDepth);
      Ok(here + rest)
  }

  /** `es` are the entries of the operations `ops`, one for one: same path, upper-cased method. */
  predicate Labels(es: seq<Entry>, ops: seq<Operation>) {
    && |es| == |ops|
    && forall i :: 0 <= i < |es| ==>
         es[i].metadata.endpoint == ops[i].path && es[i].metadata.httpMethod == Upper(ops[i].verb)
  }

  lemma LabelsAppend(es: seq<Entry>, ops: seq<Operation>, es2: seq<Entry>, ops2: seq<Operation>)
    requires Labels(es, ops) && Labels(es2, ops2)
    ensures Labels(es + es2, ops + ops2)
  {
    forall i | 0 <= i < |es + es2|
      ensures (es + es2)[i].metadata.endpoint == (ops + ops2)[i].path
      ensures (es + es2)[i].metadata.httpMethod == Upper((ops + ops2)[i].verb)
    {
      if i >= |es| {
        assert (es + es2)[i] == es2[i - |es|];
      }
    }
  }

  /** `spec.get("paths", {}) or {}`. */
  function PathsOf(spec: Json): Json
    requires spec.Obj?
  {
    Or(GetOr(spec.members, "paths", Obj([])), Obj([]))
  }

  /** `build_entries(spec, max_depth)["entries"]`, visiting the methods in the order `methods`. */
  function BuildEntries(spec: Json, maxDepth: int, methods: seq<string>): (r: Result<seq<Entry>>)
    requires IsMethodOrder(methods)
    ensures !spec.Obj? ==> r.Err?
    ensures r.Ok? ==> spec.Obj? && PathsOf(spec).Obj?
    ensures r.Ok? ==> |r.value| == |Operations(PathsOf(spec).members, methods)|
    ensures r.Ok? ==> forall i :: 0 <= i < |r.value| ==>
      r.value[i].metadata.endpoint == Operations(PathsOf(spec).members, methods)[i].path &&
      r.value[i].metadata.httpMethod == Upper(Operations(PathsOf(spec).members, methods)[i].verb)
    ensures r.Ok? ==> BuiltAll(r.value, Operations(PathsOf(spec).members, methods), spec, maxDepth)
  {
    if !spec.Obj? then Err(NoAttribute(spec, "get"))
    else
      var paths := PathsOf(spec);
      if !paths.Obj? then Err(NoAttribute(paths, "items"))
      else PathEntries(paths.members, spec, maxDepth, methods)
  }

  // ---------------------------------------------------------------- properties

  /** A path item that is not a dict is skipped: it adds no entry and raises nothing. */
  lemma SkipNonDict(path: string, item: Json, rest: seq<Member>, spec: Json, maxDepth: int, methods: seq<string>)
    requires !item.Obj?
    ensures PathEntries([Member(path, item)] + rest, spec, maxDepth, methods) == PathEntries(rest, spec, maxDepth, methods)
  {
    assert ([Member(path, item)] + rest)[1..] == rest;
    assert PathItemEntries(path, item, spec, maxDepth, methods) == Ok([]);
    var r := PathEntries(rest, spec, maxDepth, methods);
    if r.Ok? {
      assert [] + r.value == r.value;
    }
  }

  /** Which methods of a path item become entries does not depend on the order the set
      `HTTP_METHODS` is visited in: two orders give the same methods, each as often. */
  lemma MethodOrderIrrelevant(ms: seq<Member>, a: seq<string>, b: seq<string>)
    requires multiset(a) == multiset(b)
    ensures multiset(Present(ms, a)) == multiset(Present(ms, b))
    ensures |Present(ms, a)| == |Present(ms, b)|
  {
    forall m | true
      ensures multiset(Present(ms, a))[m] == multiset(Present(ms, b))[m]
    {
      PresentCount(ms, a, m);
      PresentCount(ms, b, m);
    }
    assert multiset(Present(ms, a)) == multiset(Present(ms, b));
    assert |multiset(Present(ms, a))| == |multiset(Present(ms, b))|;
  }

  /** A method is present as often as it is visited when the path item has it, else never. */
  lemma {:induction false} PresentCount(ms: seq<Member>, methods: seq<string>, m: string)
    ensures multiset(Present(ms, methods))[m] == if HasKey(ms, m) then multiset(methods)[m] else 0
    decreases |methods|
  {
    if methods != [] {
      PresentCount(ms, methods[1..], m);
      assert methods == [methods[0]] + methods[1..];
    }
  }

  /** A path item that has every method it is visited for gives one entry per method, in
      the order visited. */
  lemma {:induction false} AllPresent(ms: seq<Member>, methods: seq<string>)
    requires forall i :: 0 <= i < |methods| ==> HasKey(ms, methods[i])
    ensures Present(ms, methods) == methods
    decreases |methods|
  {
    if methods != [] {
      AllPresent(ms, methods[1..]);
    }
  }

  /** With every HTTP method in the path item, the item gives eight entries. */
  lemma EveryMethod(ms: seq<Member>, methods: seq<string>)
    requires IsMethodOrder(methods)
    requires forall i :: 0 <= i < |methods| ==> HasKey(ms, methods[i])
    ensures |Present(ms, methods)| == 8
  {
    AllPresent(ms, methods);
    assert |methods| == |multiset(methods)| == |multiset(HttpMethods)| == |HttpMethods|;
  }
}
