/** `deref` of the OpenAPI flattener: every object holding a `$ref` member is replaced by the
    object the reference points at, with the referring object's other members laid over it,
    and the result is dereferenced again; a reference already being followed on the current
    path is cut off as `{"type": "object"}`, and one that resolves to nothing becomes `{}`. */
module Deref {
  import opened Results
  import opened Json
  import opened PyValues
  import Pointer

  const RefKey := "$ref"

  /** What a reference cycle is cut off with. */
  const CycleStub := Obj([Member("type", Str("object"))])

  // ---------------------------------------------------------------- references in a value

  /** Every string stored under a `$ref` key anywhere inside `j`. */
  function Refs(j: Json): set<string>
    decreases j
  {
    match j
    case Arr(xs) => ItemRefs(xs)
    case Obj(ms) => MemberRefs(ms)
    case _ => {}
  }

  function ItemRefs(xs: seq<Json>): set<string>
    decreases xs
  {
    if xs == [] then {} else Refs(xs[0]) + ItemRefs(xs[1..])
  }

  function MemberRefs(ms: seq<Member>): set<string>
    decreases ms
  {
    if ms == [] then {} else OwnRef(ms[0]) + Refs(ms[0].value) + MemberRefs(ms[1..])
  }

  function OwnRef(m: Member): set<string> {
    if m.key == RefKey && m.value.Str? then {m.value.s} else {}
  }

  /** The references `deref` may still follow: those of the document and of the value at
      hand, minus those already followed on the current path. Every followed reference
      leaves this set, which is what makes `deref` terminate. */
  function Pending(refs: set<string>, doc: Json, seen: set<string>): set<string> {
    (Refs(doc) + refs) - seen
  }

  /** No object inside `j` has a `$ref` member. */
  predicate Resolved(j: Json)
    decreases j
  {
    match j
    case Arr(xs) => forall i :: 0 <= i < |xs| ==> Resolved(xs[i])
    case Obj(ms) => !HasKey(ms, RefKey) && forall i :: 0 <= i < |ms| ==> Resolved(ms[i].value)
    case _ => true
  }

  // ---------------------------------------------------------------- merging siblings

  /** `merged[k] = v` for every member `k: v` of the referring object other than `$ref`,
      in order, starting from the target's members. */
  function MergeInto(target: seq<Member>, ms: seq<Member>): seq<Member> {
    PutAll(target, Siblings(ms))
  }

  /** The members other than `$ref`, in order. */
  function Siblings(ms: seq<Member>): (r: seq<Member>)
    ensures forall i :: 0 <= i < |r| ==> r[i].key != RefKey && r[i] in ms
  {
    if ms == [] then []
    else if ms[0].key == RefKey then Siblings(ms[1..])
    else [ms[0]] + Siblings(ms[1..])
  }

  /** Does the referring object have a member besides `$ref`? */
  predicate HasSibling(ms: seq<Member>) {
    exists i :: 0 <= i < |ms| && ms[i].key != RefKey
  }

  /** The exception `merged[k] = v` raises when the target is not a dict. */
  function AssignError(target: Json): string {
    if target.Arr? then "list indices must be integers or slices, not str"
    else "'" + TypeName(target) + "' object does not support item assignment"
  }

  /** The exception a non-string `$ref` raises: `ref in seen` needs a hashable value, and
      `pointer.startswith` needs a string. */
  function RefTypeError(ref: Json): string {
    if !Hashable(ref) then "unhashable type: '" + TypeName(ref) + "'"
    else NoAttribute(ref, "startswith")
  }

  // ---------------------------------------------------------------- deref

  /** `deref(obj, doc, seen)`. A dict child is given a copy of `seen`, so a reference is
      cut off only when it is followed again below itself. */
  function Deref(obj: Json, doc: Json, seen: set<string>): (r: Result<Json>)
    ensures r.Ok? ==> Resolved(r.value)
    ensures obj != Null && r.Ok? ==> r.value != Null
    ensures !obj.Obj? && !obj.Arr? ==> r == Ok(obj)
    ensures obj.Arr? && r.Ok? ==> r.value.Arr? && |r.value.items| == |obj.items|
    ensures obj.Obj? && !HasKey(obj.members, RefKey) && r.Ok? ==>
              && r.value.Obj? && |r.value.members| == |obj.members|
              && forall i :: 0 <= i < |obj.members| ==> r.value.members[i].key == obj.members[i].key
    decreases Pending(Refs(obj), doc, seen), obj
  {
    match obj
    case Obj(ms) =>
      if HasKey(ms, RefKey) then DerefRef(ms, doc, seen)
      else
        var m :- DerefMembers(ms, doc, seen);
        SameKeys(m, ms, RefKey);
        Ok(Obj(m))
    case Arr(xs) =>
      var items :- DerefItems(xs, doc, seen);
      Ok(Arr(items))
    case _ => Ok(obj)
  }

  /** The `$ref` branch of `deref`. */
  function DerefRef(ms: seq<Member>, doc: Json, seen: set<string>): (r: Result<Json>)
    requires HasKey(ms, RefKey)
    ensures r.Ok? ==> Resolved(r.value) && r.value != Null
    decreases Pending(MemberRefs(ms), doc, seen), ms
  {
    var ref := Lookup(ms, RefKey).value;
    if !ref.Str? then Err(RefTypeError(ref))
    else if ref.s in seen then Ok(CycleStub)
    else
      var target := Pointer.ResolvePointer(doc, ref.s);
      if target == Null then Ok(Obj([]))
      else if !target.Obj? && HasSibling(ms) then Err(AssignError(target))
      else
        var merged := if target.Obj? then Obj(MergeInto(target.members, ms)) else target;
        FollowShrinks(ms, doc, seen, ref.s, target, merged);
        Deref(merged, doc, seen + {ref.s})
  }

  /** The dict comprehension of `deref`: every value dereferenced, keys kept in order. */
  function DerefMembers(ms: seq<Member>, doc: Json, seen: set<string>): (r: Result<seq<Member>>)
    ensures r.Ok? ==> |r.value| == |ms|
    ensures r.Ok? ==> forall i :: 0 <= i < |ms| ==> r.value[i].key == ms[i].key && Resolved(r.value[i].value)
    decreases Pending(MemberRefs(ms), doc, seen), ms
  {
    if ms == [] then Ok([])
    else
      var v :- Deref(ms[0].value, doc, seen);
      var rest :- DerefMembers(ms[1..], doc, seen);
      Ok([Member(ms[0].key, v)] + rest)
  }

  /** The list comprehension of `deref`. */
  function DerefItems(xs: seq<Json>, doc: Json, seen: set<string>): (r: Result<seq<Json>>)
    ensures r.Ok? ==> |r.value| == |xs| && forall i :: 0 <= i < |xs| ==> Resolved(r.value[i])
    decreases Pending(ItemRefs(xs), doc, seen), xs
  {
    if xs == [] then Ok([])
    else
      var v :- Deref(xs[0], doc, seen);
      var rest :- DerefItems(xs[1..], doc, seen);
      Ok([v] + rest)
  }

  // ---------------------------------------------------------------- termination

  /** Following `ref` removes it from the pending references and adds none: the merged
      value's references come from the document and from the referring object. */
  lemma FollowShrinks(ms: seq<Member>, doc: Json, seen: set<string>, ref: string, target: Json, merged: Json)
    requires HasKey(ms, RefKey) && Lookup(ms, RefKey).value == Str(ref) && ref !in seen
    requires target == Pointer.ResolvePointer(doc, ref)
    requires merged == (if target.Obj? then Obj(MergeInto(target.members, ms)) else target)
    ensures Pending(Refs(merged), doc, seen + {ref}) < Pending(MemberRefs(ms), doc, seen)
  {
    ResolveRefs(doc, ref);
    if target.Obj? {
      MergeRefs(target.members, ms);
    }
    OwnRefFound(ms);
    assert ref in Pending(MemberRefs(ms), doc, seen);
  }

  /** The `$ref` string that `deref` follows is among the object's references. */
  lemma {:induction false} OwnRefFound(ms: seq<Member>)
    requires HasKey(ms, RefKey) && Lookup(ms, RefKey).value.Str?
    ensures Lookup(ms, RefKey).value.s in MemberRefs(ms)
  {
    if ms[0].key != RefKey {
      OwnRefFound(ms[1..]);
    }
  }

  lemma {:induction false} LookupRefs(ms: seq<Member>, k: string)
    requires HasKey(ms, k)
    ensures Refs(Lookup(ms, k).value) <= MemberRefs(ms)
  {
    if ms[0].key != k {
      LookupRefs(ms[1..], k);
    }
  }

  /** A pointer resolves to a part of the document, whose references the document has. */
  lemma ResolveRefs(doc: Json, pointer: string)
    ensures Refs(Pointer.ResolvePointer(doc, pointer)) <= Refs(doc)
  {
    if Text.StartsWith(pointer, "#/") {
      WalkRefs(doc, Text.Split(pointer[2..], '/'));
    }
  }

  lemma {:induction false} WalkRefs(cur: Json, tokens: seq<string>)
    ensures Refs(Pointer.Walk(cur, tokens)) <= Refs(cur)
  {
    if tokens != [] {
      var p := Pointer.Unescape(tokens[0]);
      if cur.Obj? && HasKey(cur.members, p) {
        LookupSmaller(cur.members, p);
        LookupRefs(cur.members, p);
        WalkRefs(Lookup(cur.members, p).value, tokens[1..]);
      }
    }
  }

  lemma {:induction false} PutRefs(ms: seq<Member>, k: string, v: Json)
    requires k != RefKey
    ensures MemberRefs(Put(ms, k, v)) <= MemberRefs(ms) + Refs(v)
  {
    if ms != [] && ms[0].key != k {
      PutRefs(ms[1..], k, v);
    }
  }

  lemma MergeRefs(target: seq<Member>, ms: seq<Member>)
    ensures MemberRefs(MergeInto(target, ms)) <= MemberRefs(target) + MemberRefs(ms)
  {
    PutAllRefs(target, Siblings(ms));
    SiblingsRefs(ms);
  }

  lemma {:induction false} PutAllRefs(d: seq<Member>, xs: seq<Member>)
    requires forall i :: 0 <= i < |xs| ==> xs[i].key != RefKey
    ensures MemberRefs(PutAll(d, xs)) <= MemberRefs(d) + MemberRefs(xs)
    decreases xs
  {
    if xs != [] {
      PutRefs(d, xs[0].key, xs[0].value);
      PutAllRefs(Put(d, xs[0].key, xs[0].value), xs[1..]);
    }
  }

  lemma {:induction false} SiblingsRefs(ms: seq<Member>)
    ensures MemberRefs(Siblings(ms)) <= MemberRefs(ms)
  {
    if ms != [] {
      SiblingsRefs(ms[1..]);
    }
  }

  // ---------------------------------------------------------------- properties

  /** Siblings win: after merging, a key the referring object has (other than `$ref`) holds
      the referring object's value, and every other key holds the target's. */
  lemma MergeOverrides(target: seq<Member>, ms: seq<Member>, k: string)
    requires k != RefKey && DistinctKeys(ms)
    ensures HasKey(ms, k) ==> Lookup(MergeInto(target, ms), k) == Lookup(ms, k)
    ensures !HasKey(ms, k) ==> Lookup(MergeInto(target, ms), k) == Lookup(target, k)
  {
    SiblingsDistinct(ms);
    PutAllLookup(target, Siblings(ms), k);
    SiblingsLookup(ms, k);
  }

  lemma {:induction false} SiblingsLookup(ms: seq<Member>, k: string)
    requires k != RefKey
    ensures Lookup(Siblings(ms), k) == Lookup(ms, k)
  {
    if ms != [] {
      SiblingsLookup(ms[1..], k);
    }
  }

  lemma {:induction false} SiblingsDistinct(ms: seq<Member>)
    requires DistinctKeys(ms)
    ensures DistinctKeys(Siblings(ms))
  {
    if ms != [] {
      assert DistinctKeys(ms[1..]) by {
        forall i, j | 0 <= i < j < |ms[1..]| ensures ms[1..][i].key != ms[1..][j].key {
          assert ms[1..][i] == ms[i + 1] && ms[1..][j] == ms[j + 1];
        }
      }
      SiblingsDistinct(ms[1..]);
      var rest := Siblings(ms[1..]);
      forall j | 0 <= j < |rest| ensures rest[j].key != ms[0].key {
        var idx :| 0 <= idx < |ms[1..]| && ms[1..][idx] == rest[j];
        assert ms[idx + 1] == rest[j];
      }
    }
  }

  /** Merging only a `$ref` member leaves the target as it is. */
  lemma {:induction false} MergeNoSiblings(target: seq<Member>, ms: seq<Member>)
    requires !HasSibling(ms)
    ensures MergeInto(target, ms) == target
  {
    NoSiblings(ms);
  }

  lemma {:induction false} NoSiblings(ms: seq<Member>)
    requires !HasSibling(ms)
    ensures Siblings(ms) == []
  {
    if ms != [] {
      assert ms[0].key == RefKey;
      assert !HasSibling(ms[1..]) by {
        forall i | 0 <= i < |ms[1..]| ensures ms[1..][i].key == RefKey {
          assert ms[1..][i] == ms[i + 1];
        }
      }
      NoSiblings(ms[1..]);
    }
  }

  /** A value without references is its own dereference, whatever has been followed. */
  lemma {:induction false} ResolvedFixed(j: Json, doc: Json, seen: set<string>)
    requires Resolved(j)
    ensures Deref(j, doc, seen) == Ok(j)
    decreases j
  {
    match j
    case Obj(ms) => ResolvedMembersFixed(ms, doc, seen);
    case Arr(xs) => ResolvedItemsFixed(xs, doc, seen);
    case _ =>
  }

  lemma {:induction false} ResolvedMembersFixed(ms: seq<Member>, doc: Json, seen: set<string>)
    requires forall i :: 0 <= i < |ms| ==> Resolved(ms[i].value)
    ensures DerefMembers(ms, doc, seen) == Ok(ms)
    decreases ms
  {
    if ms != [] {
      ResolvedFixed(ms[0].value, doc, seen);
      assert forall i :: 0 <= i < |ms[1..]| ==> Resolved(ms[1..][i].value) by {
        forall i | 0 <= i < |ms[1..]| ensures Resolved(ms[1..][i].value) {
          assert ms[1..][i] == ms[i + 1];
        }
      }
      ResolvedMembersFixed(ms[1..], doc, seen);
      assert [Member(ms[0].key, ms[0].value)] + ms[1..] == ms;
    }
  }

  lemma {:induction false} ResolvedItemsFixed(xs: seq<Json>, doc: Json, seen: set<string>)
    requires forall i :: 0 <= i < |xs| ==> Resolved(xs[i])
    ensures DerefItems(xs, doc, seen) == Ok(xs)
    decreases xs
  {
    if xs != [] {
      ResolvedFixed(xs[0], doc, seen);
      assert forall i :: 0 <= i < |xs[1..]| ==> Resolved(xs[1..][i]) by {
        forall i | 0 <= i < |xs[1..]| ensures Resolved(xs[1..][i]) {
          assert xs[1..][i] == xs[i + 1];
        }
      }
      ResolvedItemsFixed(xs[1..], doc, seen);
      assert [xs[0]] + xs[1..] == xs;
    }
  }

  /** Dereferencing is idempotent: a successful result dereferences to itself. */
  lemma DerefIdempotent(obj: Json, doc: Json, seen: set<string>, seen2: set<string>)
    requires Deref(obj, doc, seen).Ok?
    ensures Deref(Deref(obj, doc, seen).value, doc, seen2) == Deref(obj, doc, seen)
  {
    ResolvedFixed(Deref(obj, doc, seen).value, doc, seen2);
  }

  /** `{"$ref": p}` with nothing else is replaced by the reference-free object `p` names. */
  lemma InlineRef(doc: Json, p: string, seen: set<string>)
    requires p !in seen
    requires Pointer.ResolvePointer(doc, p).Obj? && Resolved(Pointer.ResolvePointer(doc, p))
    ensures Deref(Obj([Member(RefKey, Str(p))]), doc, seen) == Ok(Pointer.ResolvePointer(doc, p))
  {
    var ms := [Member(RefKey, Str(p))];
    var target := Pointer.ResolvePointer(doc, p);
    MergeNoSiblings(target.members, ms);
    ResolvedFixed(target, doc, seen + {p});
  }

  /** A schema whose reference points back at itself is cut off after one step. */
  lemma SelfReference(doc: Json, p: string)
    requires Pointer.ResolvePointer(doc, p) == Obj([Member(RefKey, Str(p))])
    ensures Deref(Obj([Member(RefKey, Str(p))]), doc, {}) == Ok(CycleStub)
  {
    var ms := [Member(RefKey, Str(p))];
    assert Lookup(ms, RefKey) == Some(Str(p));
    MergeNoSiblings(ms, ms);
    assert DerefRef(ms, doc, {p}) == Ok(CycleStub);
    assert {} + {p} == {p};
    assert DerefRef(ms, doc, {}) == Deref(Obj(ms), doc, {p});
  }

  /** A reference that names nothing in the document becomes `{}`. */
  lemma DanglingRef(ms: seq<Member>, doc: Json, seen: set<string>)
    requires HasKey(ms, RefKey) && Lookup(ms, RefKey).value.Str?
    requires Lookup(ms, RefKey).value.s !in seen
    requires Pointer.ResolvePointer(doc, Lookup(ms, RefKey).value.s) == Null
    ensures Deref(Obj(ms), doc, seen) == Ok(Obj([]))
  {
  }

  /** Sibling members of a reference override the target's members of the same name. */
  lemma SiblingWins(doc: Json, p: string, k: string, v: Json)
    requires k != RefKey
    requires Pointer.ResolvePointer(doc, p).Obj?
    ensures var merged := MergeInto(Pointer.ResolvePointer(doc, p).members, [Member(RefKey, Str(p)), Member(k, v)]);
            Lookup(merged, k) == Some(v)
  {
    var ms := [Member(RefKey, Str(p)), Member(k, v)];
    assert Lookup(ms, k) == Some(v);
    MergeOverrides(Pointer.ResolvePointer(doc, p).members, ms, k);
  }
}
