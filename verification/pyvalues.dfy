/** How Python treats the JSON values the modelled code handles: truthiness, `type(v).__name__`,
    `str(v)` / `repr(v)`, the `in` operator, iteration, and `==` on the hashable values used as
    dictionary keys. */
module PyValues {
  import opened Results
  import opened Text
  import opened Json
  import opened JsonCodec

  /** `bool(v)`. */
  predicate Truthy(j: Json) {
    match j
    case Null => false
    case Bool(b) => b
    case Int(i) => i != 0
    case Str(s) => s != []
    case Arr(xs) => xs != []
    case Obj(ms) => ms != []
  }

  /** `type(v).__name__`. */
  function TypeName(j: Json): string {
    match j
    case Null => "NoneType"
    case Bool(_) => "bool"
    case Int(_) => "int"
    case Str(_) => "str"
    case Arr(_) => "list"
    case Obj(_) => "dict"
  }

  /** The `AttributeError` text for calling method `attr` on a value that lacks it. */
  function NoAttribute(j: Json, attr: string): string {
    "'" + TypeName(j) + "' object has no attribute '" + attr + "'"
  }

  /** `v or default`. */
  function Or(v: Json, default: Json): (r: Json)
    ensures Truthy(v) ==> r == v
    ensures !Truthy(v) ==> r == default
  {
    if Truthy(v) then v else default
  }

  // ---------------------------------------------------------------- str and repr

  /** `str(v)`: a string is itself, anything else is its `repr`. */
  function PyStr(j: Json): string {
    if j.Str? then j.s else PyRepr(j)
  }

  /** `repr(v)`. */
  function PyRepr(j: Json): string
    decreases j
  {
    match j
    case Null => "None"
    case Bool(b) => if b then "True" else "False"
    case Int(i) => IntText(i)
    case Str(s) => ReprText(s)
    case Arr(xs) => "[" + ReprItems(xs) + "]"
    case Obj(ms) => "{" + ReprMembers(ms) + "}"
  }

  function ReprItems(xs: seq<Json>): string
    decreases xs
  {
    if xs == [] then ""
    else if |xs| == 1 then PyRepr(xs[0])
    else PyRepr(xs[0]) + ", " + ReprItems(xs[1..])
  }

  function ReprMembers(ms: seq<Member>): string
    decreases ms
  {
    if ms == [] then ""
    else
      var first := ReprText(ms[0].key) + ": " + PyRepr(ms[0].value);
      if |ms| == 1 then first else first + ", " + ReprMembers(ms[1..])
  }

  /** The quote `repr` puts around a string: a double quote when the text holds a single
      quote and no double quote, else a single quote. */
  function ReprQuote(s: string): char {
    if '\'' in s && '"' !in s then '"' else '\''
  }

  /** `repr(s)` for a string. */
  function ReprText(s: string): (r: string)
    ensures |r| >= 2 && r[0] == ReprQuote(s) && r[|r| - 1] == ReprQuote(s)
  {
    var q := ReprQuote(s);
    [q] + ReprBody(s, q) + [q]
  }

  function ReprBody(s: string, q: char): string {
    if s == [] then "" else ReprChar(s[0], q) + ReprBody(s[1..], q)
  }

  /** One character inside `repr`: the quote and the backslash are escaped, tab, newline
      and carriage return get their short escapes, other control characters get `\xhh`. */
  function ReprChar(c: char, q: char): string {
    if c == q || c == '\\' then ['\\', c]
    else if c == '\t' then "\\t"
    else if c == '\n' then "\\n"
    else if c == '\r' then "\\r"
    else if c < ' ' || ('\U{7f}' <= c <= '\U{a0}') then "\\x" + [HexDigit(c as int / 16), HexDigit(c as int % 16)]
    else [c]
  }

  /** Text that needs no escaping and holds no quote is printed between single quotes. */
  lemma {:induction false} ReprPlain(s: string)
    requires forall i :: 0 <= i < |s| ==> ' ' <= s[i] < '\U{7f}' && s[i] != '\'' && s[i] != '\\'
    ensures ReprText(s) == "'" + s + "'"
  {
    assert ReprQuote(s) == '\'';
    ReprBodyPlain(s, '\'');
  }

  lemma {:induction false} ReprBodyPlain(s: string, q: char)
    requires forall i :: 0 <= i < |s| ==> ' ' <= s[i] < '\U{7f}' && s[i] != q && s[i] != '\\'
    ensures ReprBody(s, q) == s
  {
    if s != [] {
      ReprBodyPlain(s[1..], q);
      assert ReprChar(s[0], q) == [s[0]];
      assert [s[0]] + s[1..] == s;
    }
  }

  // ---------------------------------------------------------------- containers

  /** `needle in s` for strings: a substring test (the empty string is in every string). */
  predicate Contains(s: string, needle: string)
    decreases |s|
  {
    StartsWith(s, needle) || (s != [] && Contains(s[1..], needle))
  }

  /** `needle in c` for a string `needle`: a key test on a dict, an element test on a list,
      a substring test on a string; other values are not containers and raise. */
  function PyIn(needle: string, c: Json): (r: Result<bool>)
    ensures c.Obj? ==> r == Ok(HasKey(c.members, needle))
    ensures r.Err? <==> (c.Null? || c.Bool? || c.Int?)
  {
    match c
    case Obj(ms) => Ok(HasKey(ms, needle))
    case Arr(xs) => Ok(Str(needle) in xs)
    case Str(s) => Ok(Contains(s, needle))
    case _ => Err("argument of type '" + TypeName(c) + "' is not iterable")
  }

  /** The keys of a dict, in insertion order, as string values. */
  function Keys(ms: seq<Member>): (r: seq<Json>)
    ensures |r| == |ms|
    ensures forall i :: 0 <= i < |ms| ==> r[i] == Str(ms[i].key)
  {
    if ms == [] then [] else [Str(ms[0].key)] + Keys(ms[1..])
  }

  /** The one-character strings of a string, in order. */
  function Chars(s: string): (r: seq<Json>)
    ensures |r| == |s|
    ensures forall i :: 0 <= i < |s| ==> r[i] == Str([s[i]])
  {
    if s == [] then [] else [Str([s[0]])] + Chars(s[1..])
  }

  /** `list(v)`: what a `for` loop over `v` visits. */
  function Iterate(j: Json): (r: Result<seq<Json>>)
    ensures r.Err? <==> (j.Null? || j.Bool? || j.Int?)
    ensures j.Arr? ==> r == Ok(j.items)
  {
    match j
    case Arr(xs) => Ok(xs)
    case Obj(ms) => Ok(Keys(ms))
    case Str(s) => Ok(Chars(s))
    case _ => Err("'" + TypeName(j) + "' object is not iterable")
  }

  // ---------------------------------------------------------------- equality of keys

  /** The numeric value of a `bool` or `int` (`True == 1` in Python). */
  function Num(j: Json): Option<int> {
    match j
    case Bool(b) => Some(if b then 1 else 0)
    case Int(i) => Some(i)
    case _ => None
  }

  /** Can `v` be hashed, that is, be a set element or part of a dict key? */
  predicate Hashable(j: Json) {
    !j.Arr? && !j.Obj?
  }

  /** `a == b` for hashable values. */
  predicate KeyEq(a: Json, b: Json) {
    if Num(a).Some? && Num(b).Some? then Num(a) == Num(b) else a == b
  }

  /** Python's `==` on hashable values is an equivalence, as a dict relies on. */
  lemma KeyEqEquivalence(a: Json, b: Json, c: Json)
    ensures KeyEq(a, a)
    ensures KeyEq(a, b) ==> KeyEq(b, a)
    ensures KeyEq(a, b) && KeyEq(b, c) ==> KeyEq(a, c)
  {
  }
}
