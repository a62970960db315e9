/** `resolve_pointer` of the OpenAPI flattener: a JSON Pointer in URI-fragment form
    (`#/a/b`) is split at `/`, each reference token is unescaped as section 4 of RFC 6901
    says (`~1` to `/` first, then `~0` to `~`), and the tokens select object members one
    after another. Python's `None` (nothing found, or a member that is `null`) is `Null`. */
module Pointer {
  import opened Text
  import opened Json

  /** The unescaping of one reference token: `~1` is replaced before `~0`. A token without
      `~` is a member name as it stands. */
  function Unescape(token: string): (r: string)
    ensures '~' !in token ==> r == token
  {
    ReplaceAbsent(token, "~1", "/");
    ReplaceAbsent(token, "~0", "~");
    ReplaceAll(ReplaceAll(token, "~1", "/"), "~0", "~")
  }

  /** The escaping the unescaping undoes: `~` is written `~0` and `/` is written `~1`. */
  function EscapeKey(k: string): (r: string)
    ensures '/' !in r
  {
    if k == [] then []
    else EscapeChar(k[0]) + EscapeKey(k[1..])
  }

  function EscapeChar(c: char): (r: string)
    ensures '/' !in r
  {
    if c == '~' then "~0" else if c == '/' then "~1" else [c]
  }

  /** The loop of `resolve_pointer`: each token must name a member of the current object. */
  function Walk(cur: Json, tokens: seq<string>): (r: Json)
    ensures tokens != [] && r != Null ==> cur.Obj? && HasKey(cur.members, Unescape(tokens[0]))
  {
    if tokens == [] then cur
    else
      var p := Unescape(tokens[0]);
      if cur.Obj? && HasKey(cur.members, p) then
        LookupSmaller(cur.members, p);
        Walk(Lookup(cur.members, p).value, tokens[1..])
      else Null
  }

  /** `resolve_pointer(doc, pointer)`. */
  function ResolvePointer(doc: Json, pointer: string): (r: Json)
    ensures !StartsWith(pointer, "#/") ==> r == Null
  {
    if !StartsWith(pointer, "#/") then Null else Walk(doc, Split(pointer[2..], '/'))
  }

  // ---------------------------------------------------------------- reference lookup

  /** The value reached by following the member names `keys`, or `Null` once one is missing. */
  function Follow(j: Json, keys: seq<string>): Json {
    if keys == [] then j
    else
      if j.Obj? && HasKey(j.members, keys[0]) then
        LookupSmaller(j.members, keys[0]);
        Follow(Lookup(j.members, keys[0]).value, keys[1..])
      else Null
  }

  function EscapeAll(keys: seq<string>): (r: seq<string>)
    ensures |r| == |keys|
    ensures forall i :: 0 <= i < |keys| ==> r[i] == EscapeKey(keys[i])
  {
    if keys == [] then [] else [EscapeKey(keys[0])] + EscapeAll(keys[1..])
  }

  /** The pointer that names the member path `keys`. */
  function PointerTo(keys: seq<string>): string {
    "#/" + Join(EscapeAll(keys), "/")
  }

  /** The pointer built from a non-empty member path resolves to what following the path
      reaches: escaping and unescaping cancel, and `/` inside a key cannot split it. */
  lemma ResolvePointerTo(doc: Json, keys: seq<string>)
    requires keys != []
    ensures ResolvePointer(doc, PointerTo(keys)) == Follow(doc, keys)
  {
    var p := PointerTo(keys);
    var parts := EscapeAll(keys);
    assert p[..2] == "#/" && p[2..] == Join(parts, "/");
    SplitJoin(parts, '/');
    WalkEscaped(doc, keys);
  }

  lemma {:induction false} WalkEscaped(cur: Json, keys: seq<string>)
    ensures Walk(cur, EscapeAll(keys)) == Follow(cur, keys)
  {
    if keys != [] {
      var tokens := EscapeAll(keys);
      UnescapeEscape(keys[0]);
      assert Unescape(tokens[0]) == keys[0];
      assert tokens[1..] == EscapeAll(keys[1..]);
      if cur.Obj? && HasKey(cur.members, keys[0]) {
        LookupSmaller(cur.members, keys[0]);
        WalkEscaped(Lookup(cur.members, keys[0]).value, keys[1..]);
      }
    }
  }

  /** A pointer that is not a `#/` fragment, a step into something that is not an object,
      and a step to a missing member all give `None`. */
  lemma WalkStops(cur: Json, tokens: seq<string>)
    requires tokens != []
    requires !cur.Obj? || !HasKey(cur.members, Unescape(tokens[0]))
    ensures Walk(cur, tokens) == Null
  {
  }

  /** `~01` is `~1` escaped, so it decodes to `~1`; replacing `~0` first would give `/`. */
  lemma UnescapeOrder()
    ensures Unescape("~01") == "~1"
    ensures ReplaceAll(ReplaceAll("~01", "~0", "~"), "~1", "/") == "/"
  {
    ReplaceSkip('1', [], "~1", "/");
    ReplaceSkip('0', "1", "~1", "/");
    assert "~01"[..2][1] == '0';
    ReplaceMiss("~01", "~1", "/");
    assert ReplaceAll("~01", "~1", "/") == "~01";
    ReplaceHit("~0", "1", "~");
    ReplaceSkip('1', [], "~0", "~");
    assert Unescape("~01") == "~1";
    ReplaceHit("~1", [], "/");
  }

  // ---------------------------------------------------------------- escaping round trip

  /** Unescaping an escaped key gives the key back. */
  lemma UnescapeEscape(k: string)
    ensures Unescape(EscapeKey(k)) == k
  {
    SlashesRestored(k);
    TildesRestored(k);
  }

  /** `k` with only `~` escaped: what is left after `~1` has been replaced. */
  function TildesEscaped(k: string): string {
    if k == [] then []
    else (if k[0] == '~' then "~0" else [k[0]]) + TildesEscaped(k[1..])
  }

  lemma {:induction false} SlashesRestored(k: string)
    ensures ReplaceAll(EscapeKey(k), "~1", "/") == TildesEscaped(k)
  {
    if k != [] {
      var e := EscapeKey(k[1..]);
      SlashesRestored(k[1..]);
      assert EscapeKey(k) == EscapeChar(k[0]) + e;
      if k[0] == '/' {
        ReplaceHit("~1", e, "/");
      } else if k[0] == '~' {
        EscapedTildeKept(e);
      } else {
        ReplaceSkip(k[0], e, "~1", "/");
      }
    }
  }

  /** `~0` holds no `~1`, so the first pass copies it. */
  lemma EscapedTildeKept(e: string)
    ensures ReplaceAll("~0" + e, "~1", "/") == "~0" + ReplaceAll(e, "~1", "/")
  {
    var s := "~0" + e;
    assert s[..2][1] == '0';
    ReplaceMiss(s, "~1", "/");
    assert s[1..] == ['0'] + e;
    ReplaceSkip('0', e, "~1", "/");
    assert ['~'] + (['0'] + ReplaceAll(e, "~1", "/")) == "~0" + ReplaceAll(e, "~1", "/");
  }

  lemma {:induction false} TildesRestored(k: string)
    ensures ReplaceAll(TildesEscaped(k), "~0", "~") == k
  {
    if k != [] {
      var t := TildesEscaped(k[1..]);
      TildesRestored(k[1..]);
      if k[0] == '~' {
        assert TildesEscaped(k) == "~0" + t;
        ReplaceHit("~0", t, "~");
      } else {
        assert TildesEscaped(k) == [k[0]] + t;
        ReplaceSkip(k[0], t, "~0", "~");
      }
      assert [k[0]] + k[1..] == k;
    }
  }

  /** An occurrence of the pattern at the front is replaced and the scan resumes after it. */
  lemma ReplaceHit(pat: string, t: string, rep: string)
    requires |pat| > 0
    ensures ReplaceAll(pat + t, pat, rep) == rep + ReplaceAll(t, pat, rep)
  {
    assert (pat + t)[..|pat|] == pat;
    assert (pat + t)[|pat|..] == t;
  }

  /** A front that is not the pattern keeps its first character. */
  lemma ReplaceMiss(s: string, pat: string, rep: string)
    requires |pat| > 0 && |s| >= |pat| && s[..|pat|] != pat
    ensures ReplaceAll(s, pat, rep) == [s[0]] + ReplaceAll(s[1..], pat, rep)
  {
  }

  /** A string in which the pattern's first character never occurs is left as it is. */
  lemma {:induction false} ReplaceAbsent(s: string, pat: string, rep: string)
    requires |pat| > 0
    ensures pat[0] !in s ==> ReplaceAll(s, pat, rep) == s
    decreases |s|
  {
    if s != [] && pat[0] !in s {
      ReplaceSkip(s[0], s[1..], pat, rep);
      ReplaceAbsent(s[1..], pat, rep);
      assert [s[0]] + s[1..] == s;
    }
  }

  /** A first character that cannot start the pattern is copied. */
  lemma ReplaceSkip(c: char, t: string, pat: string, rep: string)
    requires |pat| > 0 && c != pat[0]
    ensures ReplaceAll([c] + t, pat, rep) == [c] + ReplaceAll(t, pat, rep)
  {
    var s := [c] + t;
    assert s[1..] == t;
    if |s| >= |pat| {
      assert s[..|pat|][0] == c;
    }
  }
}
