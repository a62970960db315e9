/** The per-operation helpers of the OpenAPI flattener: `deref_parameter`,
    `summarize_parameter` (one line per parameter) and `extract_request_body_str` (the
    rendered type of the preferred request body schema). */
module Extract {
  import opened Results
  import opened Text
  import opened Json
  import opened PyValues
  import opened TsTypes
  import Deref
  import Pointer
  import Clean

  /** The `max_depth` parameter schemas are rendered with. */
  const ParamDepth := 2

  /** The separator between the parts of a parameter line: an em dash between blanks. */
  const Dash := " \U{2014} "

  /** The content types looked for first, in order of preference. */
  const Preferred: seq<string> :=
    ["application/json", "application/*+json", "multipart/form-data", "application/x-www-form-urlencoded"]

  // ---------------------------------------------------------------- deref_parameter

  /** `deref(p, spec) if "$ref" in p else p`, the shape of `deref_parameter` and of the
      schema step of `summarize_parameter`. */
  function DerefParameter(p: Json, spec: Json): (r: Result<Json>)
    ensures r.Err? <==> (p.Null? || p.Bool? || p.Int? || (PyIn(Deref.RefKey, p) == Ok(true) && Deref.Deref(p, spec, {}).Err?))
    ensures p.Obj? && !HasKey(p.members, Deref.RefKey) ==> r == Ok(p)
    ensures p.Obj? && HasKey(p.members, Deref.RefKey) && r.Ok? ==> Deref.Resolved(r.value) && r.value != Null
  {
    var isRef :- PyIn(Deref.RefKey, p);
    if isRef then Deref.Deref(p, spec, {}) else Ok(p)
  }

  /** `build_entries` dereferences every parameter and `summarize_parameter` does it again;
      the second pass changes nothing once the first has given something iterable. */
  lemma DerefParameterTwice(p: Json, spec: Json)
    requires DerefParameter(p, spec).Ok?
    requires var q := DerefParameter(p, spec).value; !(q.Null? || q.Bool? || q.Int?)
    ensures DerefParameter(DerefParameter(p, spec).value, spec) == DerefParameter(p, spec)
  {
    var q := DerefParameter(p, spec).value;
    if PyIn(Deref.RefKey, p) == Ok(true) {
      Deref.ResolvedFixed(q, spec, {});
    } else {
      assert q == p;
    }
  }

  // ---------------------------------------------------------------- summarize_parameter

  /** `summarize_parameter(p, spec)`: `<in>:<name> — <type> (required|optional)`, followed by
      ` — <description>` when the cleaned description is not empty. */
  function SummarizeParameter(p0: Json, spec: Json): (r: Result<string>)
    ensures r.Ok? ==> DerefParameter(p0, spec).Ok? && DerefParameter(p0, spec).value.Obj?
    ensures r.Ok? ==> var ms := DerefParameter(p0, spec).value.members;
      StartsWith(r.value, LineFront(GetOr(ms, "in", Str("")), GetOr(ms, "name", Str(""))))
  {
    var p :- DerefParameter(p0, spec);
    if !p.Obj? then Err(NoAttribute(p, "get"))
    else
      var ms := p.members;
      var schema :- DerefParameter(GetOr(ms, "schema", Obj([])), spec);
      var dtype :- TsType(schema, spec, 0, ParamDepth);
      var desc :- Clean.CleanTextOf(Or(GetOr(ms, "description", Null), Str("")));
      var where, name := GetOr(ms, "in", Str("")), GetOr(ms, "name", Str(""));
      var required := Truthy(GetOr(ms, "required", Bool(false)));
      LineHead(where, name, dtype, required, desc);
      Ok(ParameterLine(where, name, dtype, required, desc))
  }

  /** A parameter given as `{"$ref": ptr}` is summarised exactly as the parameter the pointer
      names, when that is an object with no references left in it. */
  lemma RefParameterSummarisesTarget(ptr: string, spec: Json)
    requires Pointer.ResolvePointer(spec, ptr).Obj? && Deref.Resolved(Pointer.ResolvePointer(spec, ptr))
    ensures SummarizeParameter(Obj([Member(Deref.RefKey, Str(ptr))]), spec)
            == SummarizeParameter(Pointer.ResolvePointer(spec, ptr), spec)
  {
    Deref.InlineRef(spec, ptr, {});
  }

  /** The line of a parameter, once its type text and its cleaned description are known. */
  function ParameterLine(where: Json, name: Json, dtype: string, required: bool, desc: string): string {
    LineFront(where, name) + LineRest(dtype, required, desc)
  }

  /** `<in>:<name> — `. */
  function LineFront(where: Json, name: Json): string {
    PyStr(where) + ":" + PyStr(name) + Dash
  }

  /** `<type> (required|optional)`, then ` — <description>` when there is one. */
  function LineRest(dtype: string, required: bool, desc: string): string {
    dtype + " (" + (if required then "required" else "optional") + ")"
      + (if desc != "" then Dash + desc else "")
  }

  /** A line starts with the location and the name. */
  lemma LineHead(where: Json, name: Json, dtype: string, required: bool, desc: string)
    ensures StartsWith(ParameterLine(where, name, dtype, required, desc), LineFront(where, name))
  {
    var head, tail := LineFront(where, name), LineRest(dtype, required, desc);
    assert (head + tail)[..|head|] == head;
  }

  /** A dict parameter without `$ref` whose parts all render gives its line, with `in` and
      `name` in front, the flag after the type and the cleaned description last. */
  lemma SummaryLine(ms: seq<Member>, spec: Json, dtype: string, desc: string)
    requires !HasKey(ms, Deref.RefKey)
    requires DerefParameter(GetOr(ms, "schema", Obj([])), spec).Ok?
    requires TsType(DerefParameter(GetOr(ms, "schema", Obj([])), spec).value, spec, 0, ParamDepth) == Ok(dtype)
    requires Clean.CleanTextOf(Or(GetOr(ms, "description", Null), Str(""))) == Ok(desc)
    ensures SummarizeParameter(Obj(ms), spec)
         == Ok(ParameterLine(GetOr(ms, "in", Str("")), GetOr(ms, "name", Str("")), dtype,
                             Truthy(GetOr(ms, "required", Bool(false))), desc))
  {
  }

  /** The explicit dereference of a parameter's schema never changes its type text: the
      renderer dereferences a `$ref` schema itself, and what `deref` gives back has no
      `$ref` left to follow. (A `null` schema is the exception: `"$ref" in None` raises.) */
  lemma SchemaDerefRedundant(schema: Json, spec: Json, depth: int, maxDepth: int)
    requires schema != Null && depth < maxDepth
    ensures var pre := DerefParameter(schema, spec);
      && (pre.Ok? ==> TsType(pre.value, spec, depth, maxDepth) == TsType(schema, spec, depth, maxDepth))
      && (pre.Err? ==> TsType(schema, spec, depth, maxDepth) == Err(pre.error))
  {
    var pre := DerefParameter(schema, spec);
    if PyIn(Deref.RefKey, schema) == Ok(true) && pre.Ok? {
      var s2 := pre.value;
      assert TsType(schema, spec, depth, maxDepth) == TsBody(s2, spec, depth, maxDepth);
      ResolvedRendersDirectly(s2, spec, depth, maxDepth);
    }
  }

  /** A reference-free schema is rendered without a dereferencing step. */
  lemma ResolvedRendersDirectly(s: Json, spec: Json, depth: int, maxDepth: int)
    requires Deref.Resolved(s) && s != Null && depth < maxDepth
    ensures TsType(s, spec, depth, maxDepth) == TsBody(s, spec, depth, maxDepth)
  {
    if PyIn(Deref.RefKey, s) == Ok(true) {
      Deref.ResolvedFixed(s, spec, {});
    }
  }

  // ---------------------------------------------------------------- extract_request_body_str

  /** The first of `prefs` that `in content` finds; `in` on a value that is not a container
      raises. */
  function FirstPreferred(prefs: seq<string>, content: Json): (r: Result<Option<string>>)
    ensures (content.Null? || content.Bool? || content.Int?) && prefs != [] ==> r.Err?
    ensures !(content.Null? || content.Bool? || content.Int?) ==> r.Ok?
    ensures (forall j :: 0 <= j < |prefs| ==> PyIn(prefs[j], content) == Ok(false)) ==> r == Ok(None)
    ensures r.Ok? && r.value.Some? ==>
      exists i :: 0 <= i < |prefs| && prefs[i] == r.value.value && PyIn(prefs[i], content) == Ok(true)
        && forall j :: 0 <= j < i ==> PyIn(prefs[j], content) == Ok(false)
    ensures r.Ok? && r.value.None? ==> forall j :: 0 <= j < |prefs| ==> PyIn(prefs[j], content) == Ok(false)
  {
    if prefs == [] then Ok(None)
    else
      var hit :- PyIn(prefs[0], content);
      if hit then
        assert prefs[0] == prefs[0] && PyIn(prefs[0], content) == Ok(true);
        Ok(Some(prefs[0]))
      else
        var tail := FirstPreferred(prefs[1..], content);
        var rest := tail.value;
        if rest.Some? then
          ghost var i :| 0 <= i < |prefs[1..]| && prefs[1..][i] == rest.value
                         && PyIn(prefs[1..][i], content) == Ok(true)
                         && forall j :: 0 <= j < i ==> PyIn(prefs[1..][j], content) == Ok(false);
          assert prefs[i + 1] == rest.value && PyIn(prefs[i + 1], content) == Ok(true);
          assert forall j :: 0 <= j < i + 1 ==> PyIn(prefs[j], content) == Ok(false) by {
            forall j | 0 <= j < i + 1 ensures PyIn(prefs[j], content) == Ok(false) {
              if j > 0 { assert prefs[j] == prefs[1..][j - 1]; }
            }
          }
          Ok(rest)
        else
          assert forall j :: 0 <= j < |prefs| ==> PyIn(prefs[j], content) == Ok(false) by {
            forall j | 0 <= j < |prefs| ensures PyIn(prefs[j], content) == Ok(false) {
              if j > 0 { assert prefs[j] == prefs[1..][j - 1]; }
            }
          }
          Ok(rest)
  }

  /** The content type chosen: the first preferred type present, else the first key of a
      non-empty dict; `None` when there is nothing to choose. */
  function ContentType(content: Json): (r: Result<Option<string>>)
    ensures content == Obj([]) ==> r == Ok(None)
    ensures content.Obj? && content.members != [] ==> r.Ok? && r.value.Some?
    ensures content.Obj? && r.Ok? && r.value.Some? ==> HasKey(content.members, r.value.value)
  {
    var pref :- FirstPreferred(Preferred, content);
    if pref.Some? then Ok(pref)
    else if !Truthy(content) then Ok(None)
    else if content.Obj? then
      assert HasKey(content.members, content.members[0].key);
      Ok(Some(content.members[0].key))
    else Err(NoAttribute(content, "keys"))
  }

  /** The schema `extract_request_body_str` renders, or `None` where it returns `""`: no
      request body, no content type to choose, or no schema under the chosen one. */
  function BodySchema(op: Json, spec: Json): (r: Result<Option<Json>>)
    ensures !op.Obj? ==> r.Err?
    ensures op.Obj? && !Truthy(GetOr(op.members, "requestBody", Null)) ==> r == Ok(None)
    ensures r.Ok? && r.value.Some? ==> Truthy(r.value.value) && Deref.Resolved(r.value.value)
  {
    if !op.Obj? then Err(NoAttribute(op, "get"))
    else
      var rb0 := GetOr(op.members, "requestBody", Null);
      if !Truthy(rb0) then Ok(None)
      else
        var rb :- Deref.Deref(rb0, spec, {});
        if !rb.Obj? then Err(NoAttribute(rb, "get"))
        else
          var content := Or(GetOr(rb.members, "content", Null), Obj([]));
          ResolvedGet(rb.members, "content");
          var ct :- ContentType(content);
          if ct.None? || ct.value == "" then Ok(None)
          else if !content.Obj? then Err(NoAttribute(content, "get"))
          else
            var media := Or(GetOr(content.members, ct.value, Null), Obj([]));
            ResolvedGet(content.members, ct.value);
            if !media.Obj? then Err(NoAttribute(media, "get"))
            else
              var schema := GetOr(media.members, "schema", Null);
              ResolvedGet(media.members, "schema");
              if !Truthy(schema) then Ok(None) else Ok(Some(schema))
  }

  /** `extract_request_body_str(op, spec, max_depth)`. */
  function ExtractRequestBody(op: Json, spec: Json, maxDepth: int): (r: Result<string>)
    ensures op.Obj? && !Truthy(GetOr(op.members, "requestBody", Null)) ==> r == Ok("")
    ensures BodySchema(op, spec) == Ok(None) ==> r == Ok("")
    ensures BodySchema(op, spec).Err? ==> r.Err?
    ensures r.Ok? && r.value != "" ==> BodySchema(op, spec).Ok? && BodySchema(op, spec).value.Some?
  {
    var schema :- BodySchema(op, spec);
    if schema.None? then Ok("") else TsType(schema.value, spec, 0, maxDepth)
  }

  /** A member of a reference-free dict is reference-free, and so is `{}` or `None`. */
  lemma ResolvedGet(ms: seq<Member>, k: string)
    requires Deref.Resolved(Obj(ms))
    ensures Deref.Resolved(GetOr(ms, k, Null))
    ensures Deref.Resolved(Or(GetOr(ms, k, Null), Obj([])))
  {
    if HasKey(ms, k) {
      var i := KeyIndex(ms, k);
      assert Deref.Resolved(ms[i].value);
    }
    assert Deref.Resolved(Obj([])) by { assert !HasKey([], Deref.RefKey); }
  }

  // ---------------------------------------------------------------- choosing a content type

  /** A dict of content types: a preferred type present wins over every later preferred
      type and over every type that is not preferred, wherever it sits in the dict. */
  lemma PreferredWins(ms: seq<Member>, i: nat)
    requires i < |Preferred| && HasKey(ms, Preferred[i])
    requires forall j :: 0 <= j < i ==> !HasKey(ms, Preferred[j])
    ensures ContentType(Obj(ms)) == Ok(Some(Preferred[i]))
  {
    var r := FirstPreferred(Preferred, Obj(ms));
    assert PyIn(Preferred[i], Obj(ms)) == Ok(true);
    assert r.Ok? && r.value.Some?;
    var k :| 0 <= k < |Preferred| && Preferred[k] == r.value.value
             && PyIn(Preferred[k], Obj(ms)) == Ok(true)
             && forall j :: 0 <= j < k ==> PyIn(Preferred[j], Obj(ms)) == Ok(false);
    assert k == i;
  }

  /** `application/json` is taken whenever it is present. */
  lemma JsonPreferred(ms: seq<Member>)
    requires HasKey(ms, "application/json")
    ensures ContentType(Obj(ms)) == Ok(Some("application/json"))
  {
    PreferredWins(ms, 0);
  }

  /** A non-empty dict without any preferred type falls back to its first key. */
  lemma FirstKeyFallback(ms: seq<Member>)
    requires ms != []
    requires forall j :: 0 <= j < |Preferred| ==> !HasKey(ms, Preferred[j])
    ensures ContentType(Obj(ms)) == Ok(Some(ms[0].key))
  {
    assert forall j :: 0 <= j < |Preferred| ==> PyIn(Preferred[j], Obj(ms)) == Ok(false);
  }

  /** The usual shape, `{"requestBody": {"content": {"application/json": {"schema": s}}}}`
      with a reference-free schema, renders `s` with the given depth limit. */
  lemma JsonBodyRendered(s: Json, spec: Json, maxDepth: int)
    requires Deref.Resolved(s) && Truthy(s)
    ensures ExtractRequestBody(JsonBodyOp(s), spec, maxDepth) == TsType(s, spec, 0, maxDepth)
  {
    var media := [Member("schema", s)];
    var content := [Member("application/json", Obj(media))];
    var rb := [Member("content", Obj(content))];
    var op := [Member("requestBody", Obj(rb))];
    LookupSmall(media[0], media[0], "schema");
    LookupSmall(content[0], content[0], "application/json");
    LookupSmall(rb[0], rb[0], "content");
    LookupSmall(op[0], op[0], "requestBody");
    assert Deref.Resolved(Obj(media)) by { LookupSmall(media[0], media[0], Deref.RefKey); }
    assert Deref.Resolved(Obj(content)) by { LookupSmall(content[0], content[0], Deref.RefKey); }
    assert Deref.Resolved(Obj(rb)) by { LookupSmall(rb[0], rb[0], Deref.RefKey); }
    Deref.ResolvedFixed(Obj(rb), spec, {});
    JsonPreferred(content);
    assert BodySchema(Obj(op), spec) == Ok(Some(s));
  }

  function JsonBodyOp(s: Json): Json {
    Obj([Member("requestBody", Obj([Member("content", Obj([Member("application/json", Obj([Member("schema", s)]))]))]))])
  }
}
