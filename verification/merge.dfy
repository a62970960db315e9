/** The `merged` dict of `build_entries`: every parameter is filed under its `(name, in)`
    pair, a later parameter replaces an earlier one under an equal pair, and the values are
    read back in the order the pairs first appeared.

    Python compares dict keys with `==`, under which `True == 1`; a key is kept here in a
    canonical form (`Canon`) in which that equality is plain equality. */
module Params {
  import opened Results
  import opened Json
  import opened PyValues

  /** The numbers stand for themselves and `True`/`False` for `1`/`0`. */
  function Canon(j: Json): (r: Json)
    ensures Hashable(j) ==> Hashable(r)
  {
    if Num(j).Some? then Int(Num(j).value) else j
  }

  /** Two hashable values are equal dict keys exactly when their canonical forms agree. */
  lemma CanonKeyEq(a: Json, b: Json)
    ensures KeyEq(a, b) <==> Canon(a) == Canon(b)
  {
  }

  /** The `(name, in)` pair, canonically. */
  datatype ParamKey = ParamKey(name: Json, where: Json)

  /** An entry of the `merged` dict. */
  datatype Slot = Slot(key: ParamKey, param: Json)

  /** The `TypeError` text for a value that cannot be part of a dict key. */
  function Unhashable(j: Json): string {
    "unhashable type: '" + TypeName(j) + "'"
  }

  /** `(p.get("name"), p.get("in"))` as a dict key: `p` must be a dict, and both parts
      hashable (Python hashes the name first). */
  function KeyOf(p: Json): (r: Result<ParamKey>)
    ensures r.Ok? <==> p.Obj? && Hashable(GetOr(p.members, "name", Null)) && Hashable(GetOr(p.members, "in", Null))
  {
    if !p.Obj? then Err(NoAttribute(p, "get"))
    else
      var name := GetOr(p.members, "name", Null);
      var where := GetOr(p.members, "in", Null);
      if !Hashable(name) then Err(Unhashable(name))
      else if !Hashable(where) then Err(Unhashable(where))
      else Ok(ParamKey(Canon(name), Canon(where)))
  }

  /** Two parameters land on the same key exactly when their names and their locations are
      equal under Python's `==`. */
  lemma SameKey(p: Json, q: Json)
    requires KeyOf(p).Ok? && KeyOf(q).Ok?
    ensures KeyOf(p) == KeyOf(q) <==>
      KeyEq(GetOr(p.members, "name", Null), GetOr(q.members, "name", Null)) &&
      KeyEq(GetOr(p.members, "in", Null), GetOr(q.members, "in", Null))
  {
    CanonKeyEq(GetOr(p.members, "name", Null), GetOr(q.members, "name", Null));
    CanonKeyEq(GetOr(p.members, "in", Null), GetOr(q.members, "in", Null));
  }

  // ---------------------------------------------------------------- the dict

  /** The keys of the slots, in order. */
  function SlotKeys(slots: seq<Slot>): (r: seq<ParamKey>)
    ensures |r| == |slots|
    ensures forall i :: 0 <= i < |slots| ==> r[i] == slots[i].key
  {
    if slots == [] then [] else [slots[0].key] + SlotKeys(slots[1..])
  }

  /** The values of the slots, in order: `merged.values()`. */
  function Values(slots: seq<Slot>): (r: seq<Json>)
    ensures |r| == |slots|
    ensures forall i :: 0 <= i < |slots| ==> r[i] == slots[i].param
  {
    if slots == [] then [] else [slots[0].param] + Values(slots[1..])
  }

  /** No key is filed twice. */
  predicate Distinct(keys: seq<ParamKey>) {
    forall i, j :: 0 <= i < j < |keys| ==> keys[i] != keys[j]
  }

  /** `merged.get(k)`. */
  function Find(slots: seq<Slot>, k: ParamKey): (r: Option<Json>)
    ensures r.Some? <==> k in SlotKeys(slots)
  {
    if slots == [] then None
    else if slots[0].key == k then Some(slots[0].param)
    else Find(slots[1..], k)
  }

  /** `merged[k] = p`: an existing key keeps its place and takes `p`, a new key goes last. */
  function Store(slots: seq<Slot>, k: ParamKey, p: Json): (r: seq<Slot>)
    ensures SlotKeys(r) == if k in SlotKeys(slots) then SlotKeys(slots) else SlotKeys(slots) + [k]
    ensures Find(r, k) == Some(p)
    ensures forall k' :: k' != k ==> Find(r, k') == Find(slots, k')
  {
    if slots == [] then [Slot(k, p)]
    else if slots[0].key == k then [Slot(k, p)] + slots[1..]
    else
      var rest := Store(slots[1..], k, p);
      assert SlotKeys(slots) == [slots[0].key] + SlotKeys(slots[1..]);
      assert SlotKeys([slots[0]] + rest) == [slots[0].key] + SlotKeys(rest);
      [slots[0]] + rest
  }

  /** The `for p in ...: merged[key] = p` loop, from the dict `slots`. */
  function MergeInto(slots: seq<Slot>, ps: seq<Json>): (r: Result<seq<Slot>>)
    ensures r.Ok? <==> AllKeyed(ps)
    decreases ps
  {
    if ps == [] then Ok(slots)
    else
      var k :- KeyOf(ps[0]);
      MergeInto(Store(slots, k, ps[0]), ps[1..])
  }

  /** Every parameter has a usable key. */
  predicate AllKeyed(ps: seq<Json>) {
    forall i :: 0 <= i < |ps| ==> KeyOf(ps[i]).Ok?
  }

  /** The last of `ps` filed under `k`, if any: the parameter that wins. */
  function LastFor(ps: seq<Json>, k: ParamKey): (r: Option<Json>)
    ensures r.Some? ==> r.value in ps && KeyOf(r.value) == Ok(k)
    ensures r.None? ==> forall i :: 0 <= i < |ps| ==> KeyOf(ps[i]) != Ok(k)
    decreases |ps|
  {
    if ps == [] then None
    else
      var rest := LastFor(ps[1..], k);
      if rest.Some? then rest
      else if KeyOf(ps[0]) == Ok(k) then Some(ps[0])
      else None
  }

  /** The dict built from `path_params + op_params`, read back with `.values()`. */
  function Merge(ps: seq<Json>): (r: Result<seq<Slot>>)
    ensures r.Ok? <==> AllKeyed(ps)
    ensures r.Ok? ==> Distinct(SlotKeys(r.value))
    ensures r.Ok? ==> forall k :: Find(r.value, k) == LastFor(ps, k)
  {
    var r := MergeInto([], ps);
    if r.Ok? then
      MergeIntoDistinct([], ps);
      MergeIntoFinds([], ps);
      r
    else r
  }

  // ---------------------------------------------------------------- proofs

  /** Storing keeps the keys distinct. */
  lemma {:induction false} MergeIntoDistinct(slots: seq<Slot>, ps: seq<Json>)
    requires Distinct(SlotKeys(slots)) && MergeInto(slots, ps).Ok?
    ensures Distinct(SlotKeys(MergeInto(slots, ps).value))
    decreases ps
  {
    if ps != [] {
      var k := KeyOf(ps[0]).value;
      var next := Store(slots, k, ps[0]);
      if k !in SlotKeys(slots) {
        AppendDistinct(SlotKeys(slots), k);
      }
      MergeIntoDistinct(next, ps[1..]);
    }
  }

  lemma AppendDistinct(keys: seq<ParamKey>, k: ParamKey)
    requires Distinct(keys) && k !in keys
    ensures Distinct(keys + [k])
  {
  }

  /** After the loop, a key holds the last parameter filed under it, or what it held before
      when no parameter was. */
  lemma {:induction false} MergeIntoFinds(slots: seq<Slot>, ps: seq<Json>)
    requires MergeInto(slots, ps).Ok?
    ensures forall k ::
      Find(MergeInto(slots, ps).value, k) == (if LastFor(ps, k).Some? then LastFor(ps, k) else Find(slots, k))
    decreases ps
  {
    if ps != [] {
      var k0 := KeyOf(ps[0]).value;
      MergeIntoFinds(Store(slots, k0, ps[0]), ps[1..]);
    }
  }

  /** The winner among `a + b` is the winner among `b`, or else the winner among `a`. */
  lemma {:induction false} LastForConcat(a: seq<Json>, b: seq<Json>, k: ParamKey)
    ensures LastFor(a + b, k) == if LastFor(b, k).Some? then LastFor(b, k) else LastFor(a, k)
    decreases |a|
  {
    if a != [] {
      assert (a + b)[1..] == a[1..] + b;
      LastForConcat(a[1..], b, k);
    } else {
      assert a + b == b;
    }
  }

  /** A parameter appended last wins its key. */
  lemma LastWins(ps: seq<Json>, p: Json)
    requires KeyOf(p).Ok?
    ensures LastFor(ps + [p], KeyOf(p).value) == Some(p)
  {
    LastForConcat(ps, [p], KeyOf(p).value);
  }

  /** Operation parameters override path parameters with an equal `(name, in)`, and a path
      parameter the operation does not redeclare survives. */
  lemma OperationOverrides(pathParams: seq<Json>, opParams: seq<Json>, k: ParamKey)
    requires Merge(pathParams + opParams).Ok?
    ensures LastFor(opParams, k).Some? ==> Find(Merge(pathParams + opParams).value, k) == LastFor(opParams, k)
    ensures LastFor(opParams, k).None? ==> Find(Merge(pathParams + opParams).value, k) == LastFor(pathParams, k)
  {
    LastForConcat(pathParams, opParams, k);
  }

  /** A parameter whose key appears once is kept as it is. */
  lemma SingleKept(ps: seq<Json>, i: nat)
    requires Merge(ps).Ok? && i < |ps|
    requires forall j :: 0 <= j < |ps| && j != i ==> KeyOf(ps[j]) != KeyOf(ps[i])
    ensures ps[i] in Values(Merge(ps).value)
  {
    var k := KeyOf(ps[i]).value;
    var slots := Merge(ps).value;
    assert LastFor(ps, k) == Some(ps[i]) by {
      var w := LastFor(ps, k);
      assert w.Some? by { assert KeyOf(ps[i]) == Ok(k); }
      var j :| 0 <= j < |ps| && ps[j] == w.value;
      assert KeyOf(ps[j]) == Ok(k);
    }
    FindValue(slots, k);
  }

  /** What `Find` returns is one of the values. */
  lemma {:induction false} FindValue(slots: seq<Slot>, k: ParamKey)
    requires Find(slots, k).Some?
    ensures Find(slots, k).value in Values(slots)
    decreases |slots|
  {
    if slots[0].key != k {
      FindValue(slots[1..], k);
      assert Values(slots) == [slots[0].param] + Values(slots[1..]);
    }
  }
}
