/** The class-name formatter of the agent protocol: `_camel_to_kebab` runs two regular
    expression substitutions and lower-cases the result. Each substitution is modelled as
    the left-to-right, non-overlapping scan that `re.sub` performs. */
module Kebab {
  import opened Text
  import opened Seqs

  /** Length of the run of ASCII lower-case letters at the start of `s` (the greedy `[a-z]+`). */
  function LowerRun(s: string): (k: nat)
    ensures k <= |s|
    ensures forall i :: 0 <= i < k ==> IsAsciiLower(s[i])
    ensures k == |s| || !IsAsciiLower(s[k])
  {
    if s != [] && IsAsciiLower(s[0]) then 1 + LowerRun(s[1..]) else 0
  }

  /** Does `(.)([A-Z][a-z]+)` match at the start of `s`? (`.` is any character but a newline.) */
  predicate WordStartsAt(s: string) {
    |s| >= 3 && s[0] != '\n' && IsAsciiUpper(s[1]) && IsAsciiLower(s[2])
  }

  /** First pass, `re.sub(r"(.)([A-Z][a-z]+)", r"\1-\2", name)`: a hyphen goes before every
      capitalised word that follows some character; the scan resumes after the word. */
  function SplitWords(s: string): (r: string)
    ensures |r| >= |s|
    decreases |s|
  {
    if WordStartsAt(s) then
      var k := 2 + LowerRun(s[2..]);
      [s[0], '-'] + s[1..k] + SplitWords(s[k..])
    else if s == [] then []
    else [s[0]] + SplitWords(s[1..])
  }

  /** Does `([a-z0-9])([A-Z])` match at the start of `s`? */
  predicate HumpAt(s: string) {
    |s| >= 2 && (IsAsciiLower(s[0]) || IsAsciiDigit(s[0])) && IsAsciiUpper(s[1])
  }

  /** Second pass, `re.sub(r"([a-z0-9])([A-Z])", r"\1-\2", s1)`. */
  function SplitHumps(s: string): (r: string)
    ensures |r| >= |s|
    decreases |s|
  {
    if HumpAt(s) then [s[0], '-', s[1]] + SplitHumps(s[2..])
    else if s == [] then []
    else [s[0]] + SplitHumps(s[1..])
  }

  /** `_camel_to_kebab(name)`. */
  function CamelToKebab(name: string): (r: string)
    ensures forall i :: 0 <= i < |r| ==> !IsAsciiUpper(r[i])
  {
    Lower(SplitHumps(SplitWords(name)))
  }

  /** `s` with every hyphen deleted. */
  function Unhyphen(s: string): (r: string)
    ensures '-' !in r
  {
    if s == [] then []
    else if s[0] == '-' then Unhyphen(s[1..])
    else [s[0]] + Unhyphen(s[1..])
  }

  predicate NoUpper(s: string) {
    forall i :: 0 <= i < |s| ==> !IsAsciiUpper(s[i])
  }

  lemma {:induction false} UnhyphenAppend(a: string, b: string)
    ensures Unhyphen(a + b) == Unhyphen(a) + Unhyphen(b)
  {
    if a != [] {
      assert (a + b)[1..] == a[1..] + b;
      UnhyphenAppend(a[1..], b);
    } else {
      assert a + b == b;
    }
  }

  /** The first pass only inserts hyphens. */
  lemma {:induction false} SplitWordsUnhyphen(s: string)
    ensures Unhyphen(SplitWords(s)) == Unhyphen(s)
    decreases |s|
  {
    if WordStartsAt(s) {
      var k := 2 + LowerRun(s[2..]);
      var m, r := s[1..k], s[k..];
      var split := SplitWords(r);
      assert SplitWords(s) == [s[0], '-'] + m + split;
      assert Unhyphen([s[0], '-'] + m + split) == Unhyphen([s[0]] + m + r) by {
        SplitWordsUnhyphen(r);
        HyphenBeforeWord(s[0], m, r, split);
      }
      assert [s[0]] + m + r == s by { assert s == s[..1] + s[1..k] + s[k..]; }
    } else if s != [] {
      var split := SplitWords(s[1..]);
      assert SplitWords(s) == [s[0]] + split;
      assert Unhyphen([s[0]] + split) == Unhyphen([s[0]]) + Unhyphen(s[1..]) by {
        SplitWordsUnhyphen(s[1..]);
        UnhyphenAppend([s[0]], split);
      }
      assert Unhyphen(s) == Unhyphen([s[0]]) + Unhyphen(s[1..]) by {
        UnhyphenAppend([s[0]], s[1..]);
        assert [s[0]] + s[1..] == s;
      }
    }
  }

  /** Deleting hyphens undoes one step of the first pass. */
  lemma HyphenBeforeWord(c: char, m: string, r: string, split: string)
    requires Unhyphen(split) == Unhyphen(r)
    ensures Unhyphen([c, '-'] + m + split) == Unhyphen([c] + m + r)
  {
    calc {
      Unhyphen([c, '-'] + m + split);
      { UnhyphenAppend([c, '-'] + m, split); }
      Unhyphen([c, '-'] + m) + Unhyphen(split);
      { UnhyphenAppend([c, '-'], m); }
      Unhyphen([c, '-']) + Unhyphen(m) + Unhyphen(r);
      { HyphenDropped(c); }
      Unhyphen([c]) + Unhyphen(m) + Unhyphen(r);
      { UnhyphenAppend([c], m); }
      Unhyphen([c] + m) + Unhyphen(r);
      { UnhyphenAppend([c] + m, r); }
      Unhyphen([c] + m + r);
    }
  }

  /** A hyphen after a character is deleted with the other hyphens. */
  lemma HyphenDropped(c: char)
    ensures Unhyphen([c, '-']) == Unhyphen([c])
  {
    assert [c, '-'][1..] == ['-'];
    assert Unhyphen(['-']) == [] by { assert ['-'][1..] == []; }
  }

  /** The second pass only inserts hyphens. */
  lemma {:induction false} SplitHumpsUnhyphen(s: string)
    ensures Unhyphen(SplitHumps(s)) == Unhyphen(s)
    decreases |s|
  {
    if HumpAt(s) {
      SplitHumpsUnhyphen(s[2..]);
      assert s[0] != '-' && s[1] != '-';
      UnhyphenAppend([s[0], '-', s[1]], SplitHumps(s[2..]));
      UnhyphenAppend(s[..2], s[2..]);
      assert s[..2] + s[2..] == s;
      assert Unhyphen([s[0], '-', s[1]]) == [s[0], s[1]] by {
        assert [s[1]][1..] == [];
        assert Unhyphen([s[1]]) == [s[1]];
        assert ['-', s[1]][1..] == [s[1]];
        assert Unhyphen(['-', s[1]]) == [s[1]];
        assert [s[0], '-', s[1]][1..] == ['-', s[1]];
        assert Unhyphen([s[0], '-', s[1]]) == [s[0]] + [s[1]];
      }
      assert Unhyphen(s[..2]) == [s[0], s[1]] by {
        assert s[..2][1..] == [s[1]];
        assert [s[1]][1..] == [];
      }
    } else if s != [] {
      SplitHumpsUnhyphen(s[1..]);
      UnhyphenAppend([s[0]], SplitHumps(s[1..]));
      UnhyphenAppend([s[0]], s[1..]);
      assert [s[0]] + s[1..] == s;
    }
  }

  /** Lower-casing commutes with deleting hyphens, since a hyphen has no case. */
  lemma {:induction false} UnhyphenLower(s: string)
    ensures Unhyphen(Lower(s)) == Lower(Unhyphen(s))
  {
    if s != [] {
      UnhyphenLower(s[1..]);
      assert Lower(s) == [LowerChar(s[0])] + Lower(s[1..]);
      assert Lower(s)[1..] == Lower(s[1..]);
      if s[0] != '-' {
        assert Lower([s[0]] + Unhyphen(s[1..])) == [LowerChar(s[0])] + Lower(Unhyphen(s[1..]));
      }
    }
  }

  /** Deleting every hyphen from the kebab name gives the lower-cased class name with its
      hyphens deleted: the formatter inserts hyphens and changes case, nothing else. */
  lemma KebabOnlyInsertsHyphens(name: string)
    ensures Unhyphen(CamelToKebab(name)) == Lower(Unhyphen(name))
  {
    SplitWordsUnhyphen(name);
    SplitHumpsUnhyphen(SplitWords(name));
    UnhyphenLower(SplitHumps(SplitWords(name)));
  }

  /** Both passes need an upper-case letter to match, so text without one passes through. */
  lemma {:induction false} SplitWordsNoUpper(s: string)
    requires NoUpper(s)
    ensures SplitWords(s) == s
  {
    if s != [] {
      assert !WordStartsAt(s) by {
        if |s| >= 2 {
          assert !IsAsciiUpper(s[1]);
        }
      }
      SplitWordsNoUpper(s[1..]);
      assert [s[0]] + s[1..] == s;
    }
  }

  lemma {:induction false} SplitHumpsNoUpper(s: string)
    requires NoUpper(s)
    ensures SplitHumps(s) == s
  {
    if s != [] {
      SplitHumpsNoUpper(s[1..]);
      assert [s[0]] + s[1..] == s;
    }
  }

  lemma {:induction false} LowerNoUpper(s: string)
    requires NoUpper(s)
    ensures Lower(s) == s
  {
  }

  /** A kebab name is its own kebab name. */
  lemma KebabIdempotent(name: string)
    ensures CamelToKebab(CamelToKebab(name)) == CamelToKebab(name)
  {
    var k := CamelToKebab(name);
    SplitWordsNoUpper(k);
    SplitHumpsNoUpper(k);
    LowerNoUpper(k);
  }

  /** A prefix in which no match starts is copied by the first pass. */
  lemma {:induction false} SplitWordsCopy(p: string, rest: string)
    requires forall i :: 0 <= i < |p| ==> !WordStartsAt((p + rest)[i..])
    ensures SplitWords(p + rest) == p + SplitWords(rest)
  {
    if p != [] {
      var s := p + rest;
      assert !WordStartsAt(s[0..]);
      assert s[0..] == s;
      assert s[1..] == p[1..] + rest;
      forall i | 0 <= i < |p[1..]|
        ensures !WordStartsAt((p[1..] + rest)[i..])
      {
        assert (p[1..] + rest)[i..] == s[i + 1..];
      }
      SplitWordsCopy(p[1..], rest);
      assert [p[0]] + (p[1..] + SplitWords(rest)) == p + SplitWords(rest);
    } else {
      assert p + rest == rest;
    }
  }

  /** A prefix in which no match starts is copied by the second pass. */
  lemma {:induction false} SplitHumpsCopy(p: string, rest: string)
    requires forall i :: 0 <= i < |p| ==> !HumpAt((p + rest)[i..])
    ensures SplitHumps(p + rest) == p + SplitHumps(rest)
  {
    if p != [] {
      var s := p + rest;
      assert !HumpAt(s[0..]);
      assert s[0..] == s;
      assert s[1..] == p[1..] + rest;
      forall i | 0 <= i < |p[1..]|
        ensures !HumpAt((p[1..] + rest)[i..])
      {
        assert (p[1..] + rest)[i..] == s[i + 1..];
      }
      SplitHumpsCopy(p[1..], rest);
      assert [p[0]] + (p[1..] + SplitHumps(rest)) == p + SplitHumps(rest);
    } else {
      assert p + rest == rest;
    }
  }

  predicate AllLower(w: string) {
    forall i :: 0 <= i < |w| ==> IsAsciiLower(w[i])
  }

  predicate AllUpper(w: string) {
    forall i :: 0 <= i < |w| ==> IsAsciiUpper(w[i])
  }

  lemma {:induction false} LowerRunAll(w: string, rest: string)
    requires AllLower(w)
    requires rest == [] || !IsAsciiLower(rest[0])
    ensures LowerRun(w + rest) == |w|
  {
    if w != [] {
      assert (w + rest)[1..] == w[1..] + rest;
      LowerRunAll(w[1..], rest);
    } else {
      assert w + rest == rest;
    }
  }

  /** One capitalised word after some character: pass one puts a hyphen between them and
      resumes after the word's last lower-case letter. */
  lemma WordMatch(pre: char, u: char, w: string, rest: string)
    requires pre != '\n' && IsAsciiUpper(u) && w != [] && AllLower(w)
    requires rest == [] || !IsAsciiLower(rest[0])
    ensures SplitWords([pre, u] + w + rest) == [pre, '-', u] + w + SplitWords(rest)
  {
    var s := [pre, u] + w + rest;
    assert s[2..] == w + rest;
    assert s[2] == w[0];
    LowerRunAll(w, rest);
    SplitWordsAt(s, 2 + |w|);
    assert s[1..2 + |w|] == [u] + w;
    assert s[2 + |w|..] == rest;
    assert [pre, '-'] + ([u] + w) == [pre, '-', u] + w;
  }

  /** Where a match starts, pass one hyphenates it and resumes after its last letter. */
  lemma SplitWordsAt(s: string, k: nat)
    requires WordStartsAt(s) && k == 2 + LowerRun(s[2..])
    ensures SplitWords(s) == [s[0], '-'] + s[1..k] + SplitWords(s[k..])
  {
  }

  /** Pass one never overlaps two matches: when a capitalised word is directly followed by
      another one, the first match consumes the letter the second would need as its `(.)`,
      so pass one leaves the second capital without a hyphen. */
  lemma NoOverlap(pre: char, u: char, w: string, a: char, w2: string)
    requires pre != '\n' && IsAsciiUpper(u) && w != [] && AllLower(w)
    requires IsAsciiUpper(a) && w2 != [] && AllLower(w2)
    ensures SplitWords([pre, u] + (w + [a] + w2)) == [pre] + (['-', u] + w + [a] + w2)
  {
    Regroup([pre, u], w, [a], w2);
    WordMatch(pre, u, w, [a] + w2);
    CapitalThenLower(a, w2);
    HyphenRegroup(pre, u, w, [a] + w2);
    Assoc3(['-', u], w, [a], w2);
  }

  lemma HyphenRegroup(pre: char, u: char, w: string, t: string)
    ensures [pre, '-', u] + w + t == [pre] + (['-', u] + w + t)
  {
    assert [pre, '-', u] == [pre] + ['-', u];
  }

  /** A capital followed by lower-case letters only is left alone by pass one. */
  lemma CapitalThenLower(a: char, w2: string)
    requires IsAsciiUpper(a) && w2 != [] && AllLower(w2)
    ensures SplitWords([a] + w2) == [a] + w2
  {
    var t := [a] + w2;
    assert !WordStartsAt(t) by { assert t[1] == w2[0]; }
    assert t[1..] == w2;
    AllLowerNoUpper(w2);
    SplitWordsNoUpper(w2);
  }

  lemma {:induction false} AllLowerNoUpper(w: string)
    requires AllLower(w)
    ensures NoUpper(w)
  {
  }

  /** Pass one inside a lower-case word that is followed by a capitalised word: only the
      last letter of the first word starts a match. */
  lemma {:induction false} WordsFirstPass(w: string, u: char, w2: string)
    requires w != [] && AllLower(w)
    requires IsAsciiUpper(u) && w2 != [] && AllLower(w2)
    ensures SplitWords(w + [u] + w2) == w + ['-', u] + w2
  {
    if |w| == 1 {
      LastLetterMatch(w, u, w2);
    } else {
      LowerLetterSkip(w, u, w2);
      WordsFirstPass(w[1..], u, w2);
      ConsTail(w, ['-', u] + w2);
    }
  }

  /** The last letter of a word and the capitalised word after it form one match. */
  lemma LastLetterMatch(w: string, u: char, w2: string)
    requires |w| == 1 && IsAsciiLower(w[0])
    requires IsAsciiUpper(u) && w2 != [] && AllLower(w2)
    ensures SplitWords(w + [u] + w2) == w + ['-', u] + w2
  {
    WordMatch(w[0], u, w2, []);
    assert [w[0], u] + w2 + [] == w + [u] + w2;
    assert SplitWords([]) == [];
    assert [w[0], '-', u] + w2 + [] == w + ['-', u] + w2;
  }

  /** A lower-case letter followed by another one starts no match. */
  lemma LowerLetterSkip(w: string, u: char, w2: string)
    requires |w| > 1 && AllLower(w)
    ensures SplitWords(w + [u] + w2) == [w[0]] + SplitWords(w[1..] + [u] + w2)
  {
    var s := w + [u] + w2;
    assert s[1] == w[1] && s[2..] == w[2..] + [u] + w2;
    assert s[1..] == w[1..] + [u] + w2;
    SplitWordsSkip(s);
  }

  lemma SplitWordsSkip(s: string)
    requires s != [] && !WordStartsAt(s)
    ensures SplitWords(s) == [s[0]] + SplitWords(s[1..])
  {
  }

  /** Pass one over an acronym followed by a capitalised word: only the acronym's last
      letter starts a match. */
  lemma {:induction false} AcronymFirstPass(acr: string, u: char, rest: string)
    requires acr != [] && AllUpper(acr) && IsAsciiUpper(u)
    ensures SplitWords(acr + [u] + rest) == acr[..|acr| - 1] + SplitWords([acr[|acr| - 1], u] + rest)
  {
    var n := |acr|;
    if n > 1 {
      var last := [acr[n - 1], u] + rest;
      UpperSkip(acr, u, rest);
      AcronymFirstPass(acr[1..], u, rest);
      TailLast(acr);
      InitCons(acr, SplitWords(last));
    } else {
      assert acr[..0] == [];
      assert acr + [u] + rest == [acr[0], u] + rest;
    }
  }

  /** Inside an acronym followed by a capital, pass one copies the acronym's first letter:
      the letter after the next one is upper case, so no match starts there. */
  lemma UpperSkip(acr: string, u: char, rest: string)
    requires |acr| > 1 && AllUpper(acr) && IsAsciiUpper(u)
    ensures SplitWords(acr + [u] + rest) == [acr[0]] + SplitWords(acr[1..] + [u] + rest)
  {
    var s := acr + [u] + rest;
    if |acr| > 2 { assert s[2] == acr[2]; } else { assert s[2] == u; }
    assert s[1..] == acr[1..] + [u] + rest;
    SplitWordsSkip(s);
  }

  /** Pass two copies an upper-case prefix. */
  lemma {:induction false} UpperPrefixHumps(acr: string, rest: string)
    requires AllUpper(acr)
    ensures SplitHumps(acr + rest) == acr + SplitHumps(rest)
  {
    if acr != [] {
      assert (acr + rest)[1..] == acr[1..] + rest;
      UpperPrefixHumps(acr[1..], rest);
      assert [acr[0]] + (acr[1..] + SplitHumps(rest)) == acr + SplitHumps(rest);
    } else {
      assert acr + rest == rest;
    }
  }

  /** Pass two over a lower-case word followed by a capital: one hyphen, before the capital. */
  lemma {:induction false} WordHump(w: string, a: char, rest: string)
    requires w != [] && AllLower(w) && IsAsciiUpper(a)
    ensures SplitHumps(w + [a] + rest) == w + ['-', a] + SplitHumps(rest)
  {
    var s := w + [a] + rest;
    if |w| == 1 {
      assert s == [w[0], a] + rest;
      assert HumpAt(s);
      assert s[2..] == rest;
    } else {
      assert !HumpAt(s) by { assert s[1] == w[1]; }
      assert s[1..] == w[1..] + [a] + rest;
      assert SplitHumps(s) == [s[0]] + SplitHumps(s[1..]);
      WordHump(w[1..], a, rest);
      assert w == [w[0]] + w[1..];
    }
  }

  /** `HTTPServerAgent`: an acronym followed by two capitalised words. Pass one splits only
      before `Server` (giving `HTTP-ServerAgent`, the `r` being consumed), pass two splits
      `rA`, and the result is `http-server-agent`. */
  lemma AcronymThenWords(acr: string, u: char, w: string, a: char, w2: string)
    requires |acr| >= 1 && AllUpper(acr)
    requires IsAsciiUpper(u) && w != [] && AllLower(w)
    requires IsAsciiUpper(a) && w2 != [] && AllLower(w2)
    ensures SplitWords(acr + [u] + w + [a] + w2) == acr + ['-', u] + w + [a] + w2
    ensures SplitHumps(acr + ['-', u] + w + [a] + w2) == acr + ['-', u] + w + ['-', a] + w2
    ensures CamelToKebab(acr + [u] + w + [a] + w2)
         == Lower(acr) + ['-', LowerChar(u)] + w + ['-', LowerChar(a)] + w2
  {
    AcronymThenWordsFirstPass(acr, u, w, a, w2);
    PassTwoAcronym(acr, u, w, a, w2);
    LowerAcronymWords(acr, u, w, a, w2);
  }

  lemma AcronymThenWordsFirstPass(acr: string, u: char, w: string, a: char, w2: string)
    requires |acr| >= 1 && AllUpper(acr)
    requires IsAsciiUpper(u) && w != [] && AllLower(w)
    requires IsAsciiUpper(a) && w2 != [] && AllLower(w2)
    ensures SplitWords(acr + [u] + w + [a] + w2) == acr + ['-', u] + w + [a] + w2
  {
    Assoc3(acr + [u], w, [a], w2);
    AcronymFirstPass(acr, u, w + [a] + w2);
    NoOverlap(acr[|acr| - 1], u, w, a, w2);
    InitLastCons(acr, ['-', u] + w + [a] + w2);
    AssocTail(acr, ['-', u], w, [a], w2);
  }

  lemma PassTwoAcronym(acr: string, u: char, w: string, a: char, w2: string)
    requires |acr| >= 1 && AllUpper(acr)
    requires IsAsciiUpper(u) && w != [] && AllLower(w)
    requires IsAsciiUpper(a) && w2 != [] && AllLower(w2)
    ensures SplitHumps(acr + ['-', u] + w + [a] + w2) == acr + ['-', u] + w + ['-', a] + w2
  {
    UpperPrefixHumps(acr, ['-', u] + w + [a] + w2);
    AssocTail(acr, ['-', u], w, [a], w2);
    Assoc3(['-', u], w, [a], w2);
    HyphenCapitalHumps(u, w + [a] + w2);
    WordThenWordHumps(w, a, w2);
    Assoc(acr, ['-', u], w, ['-', a], w2);
  }

  /** Pass two copies a hyphen and the capital after it. */
  lemma HyphenCapitalHumps(u: char, t: string)
    requires IsAsciiUpper(u)
    ensures SplitHumps(['-', u] + t) == ['-', u] + SplitHumps(t)
  {
    var x := [u] + t;
    assert (['-', u] + t)[1..] == x;
    SplitHumpsSkip(['-', u] + t);
    assert x[1..] == t;
    SplitHumpsSkip(x);
    assert ['-'] + ([u] + SplitHumps(t)) == ['-', u] + SplitHumps(t);
  }

  lemma SplitHumpsSkip(s: string)
    requires s != [] && !IsAsciiLower(s[0]) && !IsAsciiDigit(s[0])
    ensures SplitHumps(s) == [s[0]] + SplitHumps(s[1..])
  {
  }

  lemma WordThenWordHumps(w: string, a: char, w2: string)
    requires w != [] && AllLower(w) && IsAsciiUpper(a) && AllLower(w2)
    ensures SplitHumps(w + [a] + w2) == w + ['-', a] + w2
  {
    WordHump(w, a, w2);
    AllLowerNoUpper(w2);
    SplitHumpsNoUpper(w2);
  }

  lemma LowerAcronymWords(acr: string, u: char, w: string, a: char, w2: string)
    requires AllLower(w) && AllLower(w2)
    ensures Lower(acr + ['-', u] + w + ['-', a] + w2)
         == Lower(acr) + ['-', LowerChar(u)] + w + ['-', LowerChar(a)] + w2
  {
    LowerAppend(acr + ['-', u] + w + ['-', a], w2);
    LowerAppend(acr + ['-', u] + w, ['-', a]);
    LowerAppend(acr + ['-', u], w);
    LowerAppend(acr, ['-', u]);
    LowerKeepsLower(w);
    LowerKeepsLower(w2);
  }

  /** Lower-case text is its own lower-case form. */
  lemma LowerKeepsLower(w: string)
    requires AllLower(w)
    ensures Lower(w) == w
  {
  }

  /** `CounterAgent`: two capitalised words become `counter-agent`. */
  lemma TwoWords(u1: char, w1: string, u2: char, w2: string)
    requires IsAsciiUpper(u1) && w1 != [] && AllLower(w1)
    requires IsAsciiUpper(u2) && w2 != [] && AllLower(w2)
    ensures CamelToKebab([u1] + w1 + [u2] + w2) == [LowerChar(u1)] + w1 + ['-', LowerChar(u2)] + w2
  {
    TwoWordsFirstPass(u1, w1, u2, w2);
    TwoWordsSecondPass(u1, w1, u2, w2);
    LowerTwoWords(u1, w1, u2, w2);
  }

  /** A single capitalised word is only lower-cased, so the base class `Agent` is `agent`. */
  lemma OneWord(u: char, w: string)
    requires IsAsciiUpper(u) && AllLower(w)
    ensures CamelToKebab([u] + w) == [LowerChar(u)] + w
  {
    var s := [u] + w;
    assert s + [] == s;
    forall i | 0 <= i < |s|
      ensures !WordStartsAt((s + [])[i..]) && !HumpAt((s + [])[i..])
    {
      if i + 1 < |s| {
        assert s[i + 1] == w[i];
      }
    }
    SplitWordsCopy(s, []);
    SplitHumpsCopy(s, []);
    forall i | 0 <= i < |w|
      ensures LowerChar(w[i]) == w[i]
    {
    }
    assert Lower(s) == [LowerChar(u)] + w;
  }

  /** The name the base class reports. */
  lemma BaseClassName()
    ensures CamelToKebab("Agent") == "agent"
  {
    OneWord('A', "gent");
    assert ['A'] + "gent" == "Agent";
  }

  lemma LowerTwoWords(u1: char, w1: string, u2: char, w2: string)
    requires AllLower(w1) && AllLower(w2)
    ensures Lower([u1] + w1 + ['-', u2] + w2) == [LowerChar(u1)] + w1 + ['-', LowerChar(u2)] + w2
  {
    LowerAppend([u1] + w1 + ['-', u2], w2);
    LowerAppend([u1] + w1, ['-', u2]);
    LowerAppend([u1], w1);
    LowerKeepsLower(w1);
    LowerKeepsLower(w2);
  }

  lemma TwoWordsFirstPass(u1: char, w1: string, u2: char, w2: string)
    requires IsAsciiUpper(u1) && w1 != [] && AllLower(w1)
    requires IsAsciiUpper(u2) && w2 != [] && AllLower(w2)
    ensures SplitWords([u1] + w1 + [u2] + w2) == [u1] + w1 + ['-', u2] + w2
  {
    var s := [u1] + w1 + [u2] + w2;
    assert SplitWords(s) == [u1] + SplitWords(w1 + [u2] + w2) by {
      assert s[1] == w1[0];
      assert s[1..] == w1 + [u2] + w2;
      SplitWordsSkip(s);
    }
    assert SplitWords(w1 + [u2] + w2) == w1 + ['-', u2] + w2 by {
      WordsFirstPass(w1, u2, w2);
    }
    assert [u1] + (w1 + ['-', u2] + w2) == [u1] + w1 + ['-', u2] + w2;
  }

  lemma TwoWordsSecondPass(u1: char, w1: string, u2: char, w2: string)
    requires IsAsciiUpper(u1) && w1 != [] && AllLower(w1)
    requires IsAsciiUpper(u2) && w2 != [] && AllLower(w2)
    ensures SplitHumps([u1] + w1 + ['-', u2] + w2) == [u1] + w1 + ['-', u2] + w2
  {
    var r1 := [u1] + w1 + ['-', u2] + w2;
    var n := |w1|;
    forall i | 0 <= i < |r1| - 1
      ensures !((IsAsciiLower(r1[i]) || IsAsciiDigit(r1[i])) && IsAsciiUpper(r1[i + 1]))
    {
      if 1 <= i + 1 <= n {
        assert r1[i + 1] == w1[i];
      } else if i + 1 > n + 2 {
        assert r1[i + 1] == w2[i + 1 - n - 3];
      }
    }
    SplitHumpsNoHump(r1);
  }

  /** Text with no lower-case letter or digit directly before an upper-case letter passes
      the second pass unchanged. */
  lemma {:induction false} SplitHumpsNoHump(s: string)
    requires forall i :: 0 <= i < |s| - 1 ==> !((IsAsciiLower(s[i]) || IsAsciiDigit(s[i])) && IsAsciiUpper(s[i + 1]))
    ensures SplitHumps(s) == s
  {
    if s != [] {
      assert !HumpAt(s) by {
        if |s| >= 2 {
          assert !((IsAsciiLower(s[0]) || IsAsciiDigit(s[0])) && IsAsciiUpper(s[0 + 1]));
        }
      }
      forall i | 0 <= i < |s[1..]| - 1
        ensures !((IsAsciiLower(s[1..][i]) || IsAsciiDigit(s[1..][i])) && IsAsciiUpper(s[1..][i + 1]))
      {
        assert s[1..][i] == s[i + 1] && s[1..][i + 1] == s[(i + 1) + 1];
      }
      SplitHumpsNoHump(s[1..]);
      assert [s[0]] + s[1..] == s;
    }
  }
}
