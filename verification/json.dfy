/** JSON values as the Python code sees them after `json.loads`: `None`, `bool`, `int`,
    `str`, `list` and `dict`. A `dict` keeps its insertion order, so an object is a
    sequence of members; Python dicts never repeat a key (see `WellFormed`). */
module Json {
  import opened Results

  datatype Member = Member(key: string, value: Json)

  datatype Json =
    | Null
    | Bool(b: bool)
    | Int(i: int)
    | Str(s: string)
    | Arr(items: seq<Json>)
    | Obj(members: seq<Member>)

  /** `d.get(k)`: the value stored under `k`, if any. */
  function Lookup(ms: seq<Member>, k: string): Option<Json> {
    if ms == [] then None
    else if ms[0].key == k then Some(ms[0].value)
    else Lookup(ms[1..], k)
  }

  /** `k in d`. */
  predicate HasKey(ms: seq<Member>, k: string) {
    Lookup(ms, k).Some?
  }

  /** `d.get(k, default)`. */
  function GetOr(ms: seq<Member>, k: string, default: Json): Json {
    match Lookup(ms, k)
    case Some(v) => v
    case None => default
  }

  /** `d[k] = v`: an existing key keeps its position and takes the new value; a new key
      goes to the end; no other key changes. */
  function Put(ms: seq<Member>, k: string, v: Json): (r: seq<Member>)
    ensures Lookup(r, k) == Some(v)
    ensures forall k' :: k' != k ==> Lookup(r, k') == Lookup(ms, k')
    ensures HasKey(ms, k) ==> |r| == |ms|
    ensures !HasKey(ms, k) ==> r == ms + [Member(k, v)]
  {
    if ms == [] then [Member(k, v)]
    else if ms[0].key == k then [Member(k, v)] + ms[1..]
    else [ms[0]] + Put(ms[1..], k, v)
  }

  /** `d[k] = v` for every member of `ms`, in order: the dict `{**d, **ms}`. */
  function PutAll(d: seq<Member>, ms: seq<Member>): seq<Member>
    decreases ms
  {
    if ms == [] then d else PutAll(Put(d, ms[0].key, ms[0].value), ms[1..])
  }

  /** The object member `k` of `j`, when `j` is an object that has it. */
  function Field(j: Json, k: string): Option<Json> {
    if j.Obj? then Lookup(j.members, k) else None
  }

  predicate DistinctKeys(ms: seq<Member>) {
    forall i, j :: 0 <= i < j < |ms| ==> ms[i].key != ms[j].key
  }

  /** Every object inside `j` has distinct keys, as every Python dict does. */
  predicate WellFormed(j: Json) {
    match j
    case Arr(items) => forall i :: 0 <= i < |items| ==> WellFormed(items[i])
    case Obj(ms) => DistinctKeys(ms) && forall i :: 0 <= i < |ms| ==> WellFormed(ms[i].value)
    case _ => true
  }

  /** The position of the first member named `k`. */
  ghost function KeyIndex(ms: seq<Member>, k: string): (i: nat)
    requires HasKey(ms, k)
    ensures i < |ms| && ms[i].key == k && Lookup(ms, k) == Some(ms[i].value)
  {
    if ms[0].key == k then 0 else 1 + KeyIndex(ms[1..], k)
  }

  /** A member value is structurally smaller than its object, so recursion may descend. */
  lemma LookupSmaller(ms: seq<Member>, k: string)
    requires HasKey(ms, k)
    ensures Lookup(ms, k).value < Obj(ms)
  {
    var i := KeyIndex(ms, k);
    assert ms[i] in ms;
  }

  /** Two member lists with the same keys in the same order have the same keys. */
  lemma {:induction false} SameKeys(a: seq<Member>, b: seq<Member>, k: string)
    requires |a| == |b| && forall i :: 0 <= i < |a| ==> a[i].key == b[i].key
    ensures HasKey(a, k) == HasKey(b, k)
  {
    if a != [] && a[0].key != k {
      SameKeys(a[1..], b[1..], k);
    }
  }

  /** In `{**d, **ms}` a key of `ms` has its value from `ms`, any other key its value from `d`. */
  lemma {:induction false} PutAllLookup(d: seq<Member>, ms: seq<Member>, k: string)
    requires DistinctKeys(ms)
    ensures Lookup(PutAll(d, ms), k) == if HasKey(ms, k) then Lookup(ms, k) else Lookup(d, k)
    decreases ms
  {
    if ms != [] {
      assert DistinctKeys(ms[1..]) by {
        forall i, j | 0 <= i < j < |ms[1..]| ensures ms[1..][i].key != ms[1..][j].key {
          assert ms[1..][i] == ms[i + 1] && ms[1..][j] == ms[j + 1];
        }
      }
      PutAllLookup(Put(d, ms[0].key, ms[0].value), ms[1..], k);
      if ms[0].key == k {
        forall i | 0 <= i < |ms[1..]| ensures ms[1..][i].key != k {
          assert ms[1..][i] == ms[i + 1];
        }
        LookupAbsent(ms[1..], k);
      }
    }
  }

  /** Looking up in a one- or two-member literal object. */
  lemma LookupSmall(a: Member, b: Member, k: string)
    ensures Lookup([a], k) == if a.key == k then Some(a.value) else None
    ensures Lookup([a, b], k) == if a.key == k then Some(a.value) else if b.key == k then Some(b.value) else None
  {
    assert [a, b][1..] == [b];
    assert [a][1..] == [] && [b][1..] == [];
  }

  /** A key that is absent from a member list is looked up as absent. */
  lemma {:induction false} LookupAbsent(ms: seq<Member>, k: string)
    requires forall i :: 0 <= i < |ms| ==> ms[i].key != k
    ensures Lookup(ms, k) == None
  {
    if ms != [] {
      LookupAbsent(ms[1..], k);
    }
  }
}
