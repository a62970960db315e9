/** What `ts_type_from_schema` promises, stated on whole schemas: the depth limit, the order
    in which keys are consulted, reference inlining, the primitive names, and the object
    layout with its `?` marks. */
module TsTypeFacts {
  import opened Results
  import opened Text
  import opened Json
  import opened JsonCodec
  import opened PyValues
  import Deref
  import Pointer
  import opened TsTypes

  /** A schema without a top-level `$ref` goes straight to the body. */
  lemma NoRefBody(ms: seq<Member>, doc: Json, depth: int, maxDepth: int)
    requires !HasKey(ms, Deref.RefKey)
    ensures TsType(Obj(ms), doc, depth, maxDepth) == TsBody(Obj(ms), doc, depth, maxDepth)
  {
  }

  /** At the depth limit a schema is only its `type` name, or `object` when it has none
      (or a non-string one); nothing below it is visited unless it is an array. */
  lemma DepthCap(ms: seq<Member>, doc: Json, depth: int, maxDepth: int)
    requires depth >= maxDepth && !HasKey(ms, Deref.RefKey)
    requires GetOr(ms, "type", Null) != Str("array")
    ensures var t := GetOr(ms, "type", Null);
            TsType(Obj(ms), doc, depth, maxDepth) == Ok(if t.Str? then t.s else "object")
  {
    NoRefBody(ms, doc, depth, maxDepth);
    assert TsBody(Obj(ms), doc, depth, maxDepth) == Capped(ms, doc, depth, maxDepth);
  }

  /** At the depth limit an array still shows its item type, taken at the same depth, so
      nested arrays never stop at the limit. */
  lemma DepthCapArray(ms: seq<Member>, doc: Json, depth: int, maxDepth: int)
    requires depth >= maxDepth && !HasKey(ms, Deref.RefKey)
    requires GetOr(ms, "type", Null) == Str("array")
    ensures var items := TsType(GetOr(ms, "items", Obj([])), doc, depth, maxDepth);
            TsType(Obj(ms), doc, depth, maxDepth) == if items.Ok? then Ok(items.value + "[]") else items
  {
    NoRefBody(ms, doc, depth, maxDepth);
    assert TsBody(Obj(ms), doc, depth, maxDepth) == Capped(ms, doc, depth, maxDepth);
  }

  /** `{"$ref": p}` is typed exactly as the reference-free schema `p` names. */
  lemma RefInlined(doc: Json, p: string, depth: int, maxDepth: int)
    requires Pointer.ResolvePointer(doc, p).Obj? && Deref.Resolved(Pointer.ResolvePointer(doc, p))
    ensures TsType(Obj([Member(Deref.RefKey, Str(p))]), doc, depth, maxDepth)
         == TsType(Pointer.ResolvePointer(doc, p), doc, depth, maxDepth)
  {
    var ms := [Member(Deref.RefKey, Str(p))];
    assert HasKey(ms, Deref.RefKey);
    Deref.InlineRef(doc, p, {});
  }

  /** A combinator joins the types of its alternatives, one level deeper, and wins over every
      key consulted after it (`const`, `enum`, `type`, ...). */
  lemma CombinatorJoins(ms: seq<Member>, key: string, sep: string, xs: seq<Json>, ts: seq<string>,
                        doc: Json, depth: int, maxDepth: int)
    requires depth < maxDepth && !HasKey(ms, Deref.RefKey)
    requires (key == "oneOf" && sep == " | ")
          || (key == "anyOf" && sep == " | " && !HasKey(ms, "oneOf"))
          || (key == "allOf" && sep == " & " && !HasKey(ms, "oneOf") && !HasKey(ms, "anyOf"))
    requires Lookup(ms, key) == Some(Arr(xs))
    requires |ts| == |xs| && forall i :: 0 <= i < |xs| ==> TsType(xs[i], doc, depth + 1, maxDepth) == Ok(ts[i])
    ensures TsType(Obj(ms), doc, depth, maxDepth) == Ok(Join(ts, sep))
  {
    LookupBound(ms, key);
    IterateBound(Arr(xs), xs, Rank(Obj(ms)), W(Obj(ms)));
    TsListOk(xs, doc, depth + 1, maxDepth, Rank(Obj(ms)), W(Obj(ms)));
    var r := TsList(xs, doc, depth + 1, maxDepth, Rank(Obj(ms)), W(Obj(ms)));
    assert r.value == ts;
    assert Alternatives(ms, key, sep, doc, depth, maxDepth) == Ok(Join(ts, sep));
  }

  /** Every alternative typed means the list is typed. */
  lemma {:induction false} TsListOk(xs: seq<Json>, doc: Json, depth: int, maxDepth: int, rank: nat, bound: nat)
    requires forall i :: 0 <= i < |xs| ==> Rank(xs[i]) <= rank && W(xs[i]) < bound
    requires forall i :: 0 <= i < |xs| ==> TsType(xs[i], doc, depth, maxDepth).Ok?
    ensures TsList(xs, doc, depth, maxDepth, rank, bound).Ok?
  {
    if xs != [] {
      assert forall i :: 0 <= i < |xs[1..]| ==> xs[1..][i] == xs[i + 1];
      TsListOk(xs[1..], doc, depth, maxDepth, rank, bound);
    }
  }

  /** `const` is rendered as its JSON text, ahead of `enum` and `type`. */
  lemma ConstFirst(ms: seq<Member>, doc: Json, depth: int, maxDepth: int)
    requires depth < maxDepth && !HasKey(ms, Deref.RefKey)
    requires !HasKey(ms, "oneOf") && !HasKey(ms, "anyOf") && !HasKey(ms, "allOf")
    requires HasKey(ms, "const")
    ensures TsType(Obj(ms), doc, depth, maxDepth) == Ok(Dumps(Lookup(ms, "const").value))
  {
  }

  /** An `enum` list is the union of its values' JSON texts, ahead of `type`. */
  lemma EnumUnion(ms: seq<Member>, xs: seq<Json>, doc: Json, depth: int, maxDepth: int)
    requires depth < maxDepth && !HasKey(ms, Deref.RefKey)
    requires !HasKey(ms, "oneOf") && !HasKey(ms, "anyOf") && !HasKey(ms, "allOf") && !HasKey(ms, "const")
    requires Lookup(ms, "enum") == Some(Arr(xs))
    ensures TsType(Obj(ms), doc, depth, maxDepth) == Ok(Join(DumpsAll(xs), " | "))
  {
  }

  /** A primitive `type` is its own name, `integer` being `number`; a non-empty `format`
      follows in a comment. */
  lemma PrimitiveName(t: string, fmt: Json, doc: Json, depth: int, maxDepth: int)
    requires t in Primitives && depth < maxDepth
    ensures var base := if t == "integer" then "number" else t;
            TsType(Obj([Member("type", Str(t)), Member("format", fmt)]), doc, depth, maxDepth)
              == Ok(if Truthy(fmt) then base + " /* " + PyStr(fmt) + " */" else base)
  {
    var ms := [Member("type", Str(t)), Member("format", fmt)];
    var a, b := Member("type", Str(t)), Member("format", fmt);
    LookupSmall(a, b, Deref.RefKey);
    LookupSmall(a, b, "oneOf");
    LookupSmall(a, b, "anyOf");
    LookupSmall(a, b, "allOf");
    LookupSmall(a, b, "const");
    LookupSmall(a, b, "enum");
    LookupSmall(a, b, "type");
    LookupSmall(a, b, "format");
    LookupSmall(a, b, "properties");
    LookupSmall(a, b, "additionalProperties");
    ReachesTyped(ms, doc, depth, maxDepth);
    PrimitiveTyped(ms, t, fmt, doc, depth, maxDepth);
  }

  lemma PrimitiveTyped(ms: seq<Member>, t: string, fmt: Json, doc: Json, depth: int, maxDepth: int)
    requires t in Primitives && GetOr(ms, "type", Null) == Str(t) && GetOr(ms, "format", Null) == fmt
    requires !HasKey(ms, "properties") && !HasKey(ms, "additionalProperties")
    ensures var base := if t == "integer" then "number" else t;
            Typed(ms, doc, depth, maxDepth) == Ok(if Truthy(fmt) then base + " /* " + PyStr(fmt) + " */" else base)
  {
    assert t != "array" && t != "object";
  }

  /** An object without properties is an empty pair of braces. */
  lemma EmptyObject(doc: Json, depth: int, maxDepth: int)
    requires depth < maxDepth
    ensures TsType(Obj([Member("type", Str("object"))]), doc, depth, maxDepth) == Ok("{\n}")
  {
    var ms := [Member("type", Str("object"))];
    forall k ensures Lookup(ms, k) == if k == "type" then Some(Str("object")) else None {
      LookupSmall(Member("type", Str("object")), Member("type", Str("object")), k);
    }
    ReachesTyped(ms, doc, depth, maxDepth);
    assert Typed(ms, doc, depth, maxDepth) == ObjectType(ms, doc, depth, maxDepth);
    assert RequiredSet(Arr([])) == Ok([]);
    assert PropLines([], [], doc, depth, maxDepth, Rank(Obj(ms)), W(Obj(ms))) == Ok([]);
    assert IndexSignature(Bool(false), doc, depth, maxDepth) == Ok([]);
    assert Join([], "\n") == "";
    assert Braced("") == "{\n}";
  }

  /** A property whose name starts with `x-` contributes no line. */
  lemma ExtensionSkipped(name: string, sub: Json, rest: seq<Member>, required: seq<Json>,
                         doc: Json, depth: int, maxDepth: int, rank: nat, bound: nat)
    requires StartsWith(name, "x-")
    requires Rank(sub) <= rank && W(sub) < bound
    requires forall i :: 0 <= i < |rest| ==> Rank(rest[i].value) <= rank && W(rest[i].value) < bound
    ensures PropLines([Member(name, sub)] + rest, required, doc, depth, maxDepth, rank, bound)
         == PropLines(rest, required, doc, depth, maxDepth, rank, bound)
  {
    assert ([Member(name, sub)] + rest)[1..] == rest;
  }

  /** A property is marked optional exactly when `required` does not name it; `required` is
      read as a set of names. */
  lemma OptionalUnlessRequired(name: string, names: seq<string>)
    ensures var required := seq(|names|, i requires 0 <= i < |names| => Str(names[i]));
            RequiredSet(Arr(required)) == Ok(required)
            && (OptMark(name, required) == "" <==> name in names)
  {
    var required := seq(|names|, i requires 0 <= i < |names| => Str(names[i]));
    if name in names {
      var i :| 0 <= i < |names| && names[i] == name;
      assert required[i] == Str(name);
    }
  }

  /** A schema that guesses `array` from `items` is typed like the explicit
      `{"type": "array", **s}` that `ts_type_from_schema` re-calls itself with. */
  lemma InferredArray(ms: seq<Member>, doc: Json, depth: int, maxDepth: int)
    requires depth < maxDepth && DistinctKeys(ms)
    requires HasKey(ms, "items") && !HasKey(ms, "type") && !HasKey(ms, Deref.RefKey)
    requires !HasKey(ms, "oneOf") && !HasKey(ms, "anyOf") && !HasKey(ms, "allOf")
    requires !HasKey(ms, "const") && !HasKey(ms, "enum")
    requires !HasKey(ms, "pattern") && !HasKey(ms, "minLength") && !HasKey(ms, "maxLength")
    requires !HasKey(ms, "properties") && !HasKey(ms, "additionalProperties")
    ensures TsType(Obj(PutAll([Member("type", Str("array"))], ms)), doc, depth, maxDepth)
         == TsType(Obj(ms), doc, depth, maxDepth)
  {
    var spread := PutAll([Member("type", Str("array"))], ms);
    var items := GetOr(ms, "items", Obj([]));
    SpreadArray(ms, doc, depth, maxDepth);
    assert TsType(Obj(spread), doc, depth, maxDepth) == ArrayOf(items, doc, depth + 1, maxDepth);
    InferredArrayBody(ms, doc, depth, maxDepth);
  }

  lemma SpreadArray(ms: seq<Member>, doc: Json, depth: int, maxDepth: int)
    requires depth < maxDepth && DistinctKeys(ms)
    requires HasKey(ms, "items") && !HasKey(ms, "type") && !HasKey(ms, Deref.RefKey)
    requires !HasKey(ms, "oneOf") && !HasKey(ms, "anyOf") && !HasKey(ms, "allOf")
    requires !HasKey(ms, "const") && !HasKey(ms, "enum")
    ensures TsType(Obj(PutAll([Member("type", Str("array"))], ms)), doc, depth, maxDepth)
         == ArrayOf(GetOr(ms, "items", Obj([])), doc, depth + 1, maxDepth)
  {
    var spread := PutAll([Member("type", Str("array"))], ms);
    var base := [Member("type", Str("array"))];
    PutAllLookup(base, ms, Deref.RefKey);
    PutAllLookup(base, ms, "oneOf");
    PutAllLookup(base, ms, "anyOf");
    PutAllLookup(base, ms, "allOf");
    PutAllLookup(base, ms, "const");
    PutAllLookup(base, ms, "enum");
    PutAllLookup(base, ms, "items");
    PutAllLookup(base, ms, "type");
    ReachesTyped(spread, doc, depth, maxDepth);
    assert GetOr(spread, "type", Null) == Str("array");
    assert GetOr(spread, "items", Obj([])) == GetOr(ms, "items", Obj([]));
  }

  lemma InferredArrayBody(ms: seq<Member>, doc: Json, depth: int, maxDepth: int)
    requires depth < maxDepth
    requires HasKey(ms, "items") && !HasKey(ms, "type") && !HasKey(ms, Deref.RefKey)
    requires !HasKey(ms, "oneOf") && !HasKey(ms, "anyOf") && !HasKey(ms, "allOf")
    requires !HasKey(ms, "const") && !HasKey(ms, "enum")
    requires !HasKey(ms, "pattern") && !HasKey(ms, "minLength") && !HasKey(ms, "maxLength")
    requires !HasKey(ms, "properties") && !HasKey(ms, "additionalProperties")
    ensures TsType(Obj(ms), doc, depth, maxDepth) == ArrayOf(GetOr(ms, "items", Obj([])), doc, depth + 1, maxDepth)
  {
    ReachesTyped(ms, doc, depth, maxDepth);
  }

  /** Without a top-level `$ref`, combinator, `const` or `enum`, and above the depth limit,
      the `type`-driven part decides. */
  /** The fallbacks for a schema without a usable `type`: `{}` is `any`; a string constraint
      (`pattern`, `minLength`, `maxLength`) makes it `string`; otherwise, with nothing to
      infer from, it is `any`. */
  lemma TypelessFallbacks(ms: seq<Member>, doc: Json, depth: int, maxDepth: int)
    requires depth < maxDepth && GetOr(ms, "type", Null) == Null && !HasKey(ms, Deref.RefKey)
    requires !HasKey(ms, "oneOf") && !HasKey(ms, "anyOf") && !HasKey(ms, "allOf")
    requires !HasKey(ms, "const") && !HasKey(ms, "enum")
    requires !HasKey(ms, "properties") && !HasKey(ms, "additionalProperties")
    ensures ms == [] ==> TsType(Obj(ms), doc, depth, maxDepth) == Ok("any")
    ensures HasKey(ms, "pattern") || HasKey(ms, "minLength") || HasKey(ms, "maxLength") ==>
              TsType(Obj(ms), doc, depth, maxDepth) == Ok("string")
    ensures (!HasKey(ms, "pattern") && !HasKey(ms, "minLength") && !HasKey(ms, "maxLength")
             && !HasKey(ms, "items")) ==> TsType(Obj(ms), doc, depth, maxDepth) == Ok("any")
  {
    ReachesTyped(ms, doc, depth, maxDepth);
  }

  /** A `type` that is not one of the names `ts_type_from_schema` knows (a string such as
      `uuid`, or a list of names) renders as `any`. */
  lemma UnknownType(ms: seq<Member>, doc: Json, depth: int, maxDepth: int)
    requires depth < maxDepth && !HasKey(ms, Deref.RefKey)
    requires !HasKey(ms, "oneOf") && !HasKey(ms, "anyOf") && !HasKey(ms, "allOf")
    requires !HasKey(ms, "const") && !HasKey(ms, "enum")
    requires !HasKey(ms, "properties") && !HasKey(ms, "additionalProperties")
    requires var t := GetOr(ms, "type", Null);
             t != Null && t != Str("array") && t != Str("object") && !(t.Str? && t.s in Primitives)
    ensures TsType(Obj(ms), doc, depth, maxDepth) == Ok("any")
  {
    ReachesTyped(ms, doc, depth, maxDepth);
  }

  lemma ReachesTyped(ms: seq<Member>, doc: Json, depth: int, maxDepth: int)
    requires depth < maxDepth && !HasKey(ms, Deref.RefKey)
    requires !HasKey(ms, "oneOf") && !HasKey(ms, "anyOf") && !HasKey(ms, "allOf")
    requires !HasKey(ms, "const") && !HasKey(ms, "enum")
    ensures TsType(Obj(ms), doc, depth, maxDepth) == Typed(ms, doc, depth, maxDepth)
  {
    NoRefBody(ms, doc, depth, maxDepth);
  }

  /** With an explicit `"type": null` the re-built `{"type": "array", **s}` maps every key as
      `s` does, so the re-call meets the same schema again and never returns. */
  lemma ExplicitNullRecurses(ms: seq<Member>, doc: Json, depth: int, maxDepth: int, k: string)
    requires depth < maxDepth && DistinctKeys(ms)
    requires Lookup(ms, "type") == Some(Null) && HasKey(ms, "items") && !HasKey(ms, Deref.RefKey)
    requires !HasKey(ms, "oneOf") && !HasKey(ms, "anyOf") && !HasKey(ms, "allOf")
    requires !HasKey(ms, "const") && !HasKey(ms, "enum")
    requires !HasKey(ms, "pattern") && !HasKey(ms, "minLength") && !HasKey(ms, "maxLength")
    requires !HasKey(ms, "properties") && !HasKey(ms, "additionalProperties")
    ensures Lookup(PutAll([Member("type", Str("array"))], ms), k) == Lookup(ms, k)
    ensures TsType(Obj(ms), doc, depth, maxDepth) == Err(RecursionError)
  {
    PutAllLookup([Member("type", Str("array"))], ms, k);
    ReachesTyped(ms, doc, depth, maxDepth);
    NullTypeTyped(ms, doc, depth, maxDepth);
  }

  lemma NullTypeTyped(ms: seq<Member>, doc: Json, depth: int, maxDepth: int)
    requires Lookup(ms, "type") == Some(Null) && HasKey(ms, "items")
    requires !HasKey(ms, "pattern") && !HasKey(ms, "minLength") && !HasKey(ms, "maxLength")
    requires !HasKey(ms, "properties") && !HasKey(ms, "additionalProperties")
    ensures Typed(ms, doc, depth, maxDepth) == Err(RecursionError)
  {
    assert ms != [] && GetOr(ms, "type", Null) == Null;
  }
}
