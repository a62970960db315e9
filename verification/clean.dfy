/** `clean_text` of the OpenAPI flattener: every run of whitespace (the `\s` class of
    Python's `re` on `str`, which is `str.isspace`) becomes one blank, and the result is
    stripped. Its reference definition is `" ".join(text.split())`. */
module Clean {
  import opened Results
  import opened Text
  import opened Json
  import opened PyValues
  import Seqs

  /** `re.sub(r"\s+", " ", s)`: a left-to-right scan where a whitespace character and the
      whitespace after it are replaced by one blank. */
  function Collapse(s: string): string
    decreases |s|
  {
    if s == [] then []
    else if IsSpace(s[0]) then " " + Collapse(DropSpaces(s[1..]))
    else [s[0]] + Collapse(s[1..])
  }

  /** `clean_text` on a non-empty string. */
  function CleanText(s: string): (r: string)
    ensures IsClean(r)
    ensures r == Join(Words(s), " ")
  {
    CollapseWords(s);
    JoinWordsClean(Words(s));
    Strip(Collapse(s))
  }

  /** `clean_text(text)` on whatever the caller passes: a falsy value gives `""`, and a
      truthy value that is not a string makes `re.sub` raise. */
  function CleanTextOf(j: Json): (r: Result<string>)
    ensures !Truthy(j) ==> r == Ok("")
    ensures Truthy(j) && j.Str? ==> r == Ok(CleanText(j.s))
    ensures Truthy(j) && !j.Str? ==> r.Err?
    ensures r.Ok? ==> IsClean(r.value)
  {
    if !Truthy(j) then Ok("")
    else if j.Str? then Ok(CleanText(j.s))
    else Err("expected string or bytes-like object, got '" + TypeName(j) + "'")
  }

  /** Text as `clean_text` leaves it: no whitespace at either end, no whitespace other
      than the blank, and never two blanks in a row. */
  predicate IsClean(r: string) {
    && (r == [] || (!IsSpace(r[0]) && !IsSpace(r[|r| - 1])))
    && (forall i :: 0 <= i < |r| && IsSpace(r[i]) ==> r[i] == ' ')
    && (forall i :: 0 <= i < |r| - 1 && IsSpace(r[i]) ==> !IsSpace(r[i + 1]))
  }

  // ---------------------------------------------------------------- reference definition

  predicate IsWord(w: string) {
    w != [] && NoSpace(w)
  }

  /** Every element is a word. */
  predicate AllWords(ws: seq<string>) {
    ws == [] || (IsWord(ws[0]) && AllWords(ws[1..]))
  }

  predicate NoSpace(w: string) {
    forall i :: 0 <= i < |w| ==> !IsSpace(w[i])
  }

  /** The run of non-whitespace characters at the front of `s`. */
  function Word(s: string): (w: string)
    ensures |w| <= |s|
    ensures NoSpace(w)
    ensures |w| == |s| || IsSpace(s[|w|])
    ensures s != [] && !IsSpace(s[0]) ==> w != []
  {
    if s == [] || IsSpace(s[0]) then [] else [s[0]] + Word(s[1..])
  }

  /** `s.split()`: the maximal runs of non-whitespace characters, in order. */
  function Words(s: string): (ws: seq<string>)
    ensures AllWords(ws)
    decreases |s|
  {
    var t := DropSpaces(s);
    if t == [] then []
    else
      var w := Word(t);
      [w] + Words(t[|w|..])
  }

  // ---------------------------------------------------------------- properties

  /** Cleaning is idempotent. */
  lemma CleanIdempotent(s: string)
    ensures CleanText(CleanText(s)) == CleanText(s)
  {
    WordsOfJoin(Words(s));
  }

  /** Clean text is left as it is. */
  lemma CleanFixpoint(c: string)
    requires IsClean(c)
    ensures CleanText(c) == c
  {
    CleanWords(c);
  }

  /** Around and between two words, a leading tab, a line break between blanks and a
      trailing blank all go. */
  lemma CleanTwoWords(a: string, b: string)
    requires IsWord(a) && IsWord(b)
    ensures CleanText("\t" + a + " \n " + b + " ") == a + " " + b
  {
    TwoWords(a, b);
    assert Join([a, b], " ") == a + " " + Join([b], " ");
  }

  lemma TwoWords(a: string, b: string)
    requires IsWord(a) && IsWord(b)
    ensures Words("\t" + a + " \n " + b + " ") == [a, b]
  {
    var s1 := a + ([' '] + (['\n'] + ([' '] + (b + [' ']))));
    TwoWordsShape(a, b);
    WordsSpace('\t', s1);
    TwoWordsTail(a, b);
  }

  /** The example text is a tab, then the first word and the rest. */
  lemma TwoWordsShape(a: string, b: string)
    ensures "\t" + a + " \n " + b + " " == ['\t'] + (a + ([' '] + (['\n'] + ([' '] + (b + [' '])))))
  {
    assert " \n " == [' '] + (['\n'] + [' ']);
    assert " " == [' '];
  }

  lemma TwoWordsTail(a: string, b: string)
    requires IsWord(a) && IsWord(b)
    ensures Words(a + ([' '] + (['\n'] + ([' '] + (b + [' ']))))) == [a, b]
  {
    LastWordBlank(b);
    WordsOfConsSpace(a, ' ', ['\n'] + ([' '] + (b + [' '])));
  }

  /** A word between whitespace is the only word. */
  lemma LastWordBlank(b: string)
    requires IsWord(b)
    ensures Words(['\n'] + ([' '] + (b + [' ']))) == [b]
  {
    WordBlank(b);
    WordsSpace('\n', [' '] + (b + [' ']));
    WordsSpace(' ', b + [' ']);
  }

  lemma WordBlank(b: string)
    requires IsWord(b)
    ensures Words(b + [' ']) == [b]
  {
    assert b + ([' '] + []) == b + [' '] by { assert [' '] + [] == [' ']; }
    WordsOfConsSpace(b, ' ', []);
    WordsEmpty();
  }

  lemma WordsEmpty()
    ensures Words([]) == []
  {
  }

  // ---------------------------------------------------------------- proof of the reference

  /** The word is the front of the text. */
  lemma {:induction false} WordPrefix(s: string)
    ensures s == Word(s) + s[|Word(s)|..]
  {
    if s != [] && !IsSpace(s[0]) {
      WordPrefix(s[1..]);
      assert s == [s[0]] + s[1..];
    }
  }

  /** A leading run that holds no whitespace is copied. */
  lemma {:induction false} CollapseWord(w: string, rest: string)
    requires NoSpace(w)
    ensures Collapse(w + rest) == w + Collapse(rest)
  {
    if w != [] {
      var s := w + rest;
      CollapseWord(w[1..], rest);
      assert s[0] == w[0] && !IsSpace(s[0]);
      assert s[1..] == w[1..] + rest;
      assert Collapse(s) == [w[0]] + Collapse(w[1..] + rest);
      assert w == [w[0]] + w[1..];
    } else {
      assert w + rest == rest;
    }
  }

  lemma {:induction false} AllSpaces(s: string)
    requires DropSpaces(s) == []
    ensures forall i :: 0 <= i < |s| ==> IsSpace(s[i])
  {
    if s != [] {
      AllSpaces(s[1..]);
      assert forall i :: 1 <= i < |s| ==> s[i] == s[1..][i - 1];
    }
  }

  /** The blank the scan leaves after the last word when the text ends in whitespace. */
  function Trail(s: string): string {
    if DropSpaces(s) != [] && IsSpace(s[|s| - 1]) then " " else ""
  }

  /** The scan over text without leading whitespace gives the words joined by blanks, and a
      blank after them when the text ends in whitespace. */
  lemma {:induction false} CollapseWordsTail(s: string)
    ensures Collapse(DropSpaces(s)) == Join(Words(s), " ") + Trail(s)
    decreases |s|
  {
    var t := DropSpaces(s);
    if t == [] {
      assert Words(s) == [];
    } else {
      var w := Word(t);
      var rest := t[|w|..];
      WordsStep(s);
      CollapseWord(w, rest);
      if rest == [] {
        assert t == w && Collapse(t) == w by { assert w + [] == w; }
        assert Words(s) == [w];
        LastWord(s, w, Words(s));
      } else {
        var c := Collapse(DropSpaces(rest));
        CollapseBlankRun(rest);
        assert Collapse(t) == w + (" " + c);
        CollapseWordsTail(rest);
        SameLast(s, rest);
        if DropSpaces(rest) == [] {
          AllSpaces(rest);
          assert Words(rest) == [];
          TrailingBlank(s, w, rest, Words(s));
        } else {
          MoreWords(s, w, rest, Words(s), Words(rest));
        }
      }
    }
  }

  /** One step of `Words`: the first word, then the words of what follows it. */
  lemma WordsStep(s: string)
    requires DropSpaces(s) != []
    ensures var t := DropSpaces(s);
      && t == Word(t) + t[|Word(t)|..]
      && Words(s) == [Word(t)] + Words(t[|Word(t)|..])
      && IsWord(Word(t))
      && |t[|Word(t)|..]| < |s|
      && (t[|Word(t)|..] == [] || IsSpace(t[|Word(t)|..][0]))
  {
    WordPrefix(DropSpaces(s));
  }

  /** A whitespace run at the front becomes one blank. */
  lemma CollapseBlankRun(rest: string)
    requires rest != [] && IsSpace(rest[0])
    ensures Collapse(rest) == " " + Collapse(DropSpaces(rest))
  {
    assert DropSpaces(rest) == DropSpaces(rest[1..]);
  }

  /** A non-empty suffix ends where the text ends. */
  lemma SameLast(s: string, rest: string)
    requires DropSpaces(s) != [] && rest != []
    requires rest == DropSpaces(s)[|Word(DropSpaces(s))|..]
    ensures s[|s| - 1] == rest[|rest| - 1]
  {
    var t := DropSpaces(s);
    SuffixLast(s, t);
    SuffixLast(t, rest);
  }

  /** A non-empty suffix ends with the last character. */
  lemma SuffixLast(s: string, u: string)
    requires u != [] && |u| <= |s| && u == s[|s| - |u|..]
    ensures u[|u| - 1] == s[|s| - 1]
  {
  }

  /** Text whose only word ends it: the scan gives the word. */
  lemma LastWord(s: string, w: string, ws: seq<string>)
    requires DropSpaces(s) == w && w != [] && !IsSpace(w[|w| - 1])
    requires ws == [w]
    ensures Join(ws, " ") + Trail(s) == w
  {
    assert s[|s| - 1] == w[|w| - 1];
    assert w + "" == w;
  }

  /** Text whose only word is followed by whitespace: the scan gives the word and a blank. */
  lemma TrailingBlank(s: string, w: string, rest: string, ws: seq<string>)
    requires DropSpaces(s) != [] && DropSpaces(rest) == [] && rest != []
    requires ws == [w]
    requires IsSpace(s[|s| - 1])
    ensures Join(ws, " ") + Trail(s) == w + (" " + (Join([], " ") + Trail(rest)))
  {
    assert " " + ("" + "") == " ";
  }

  /** Text with more words after the first: the first word, a blank and the rest. */
  lemma MoreWords(s: string, w: string, rest: string, ws: seq<string>, rs: seq<string>)
    requires rs != [] && ws == [w] + rs
    requires DropSpaces(s) != [] && DropSpaces(rest) != [] && rest != []
    requires s[|s| - 1] == rest[|rest| - 1]
    ensures Join(ws, " ") + Trail(s) == w + (" " + (Join(rs, " ") + Trail(rest)))
  {
    var j := Join(rs, " ");
    assert ws[1..] == rs;
    assert Join(ws, " ") == w + " " + j;
    assert Trail(s) == Trail(rest);
    Seqs.Assoc3(w, " ", j, Trail(rest));
    Seqs.Assoc2(" ", j, Trail(rest));
  }

  /** `Strip(Collapse(s))` is the words joined by blanks. */
  lemma CollapseWords(s: string)
    ensures Strip(Collapse(s)) == Join(Words(s), " ")
  {
    var j := Join(Words(s), " ");
    var lead, trail := Lead(s), Trail(s);
    assert Collapse(s) == lead + (j + trail) by { CollapseShape(s); }
    assert j == [] || (!IsSpace(j[0]) && !IsSpace(j[|j| - 1])) by { JoinEnds(Words(s)); }
    assert j == [] ==> trail == "" by { TrailAfterWord(s); }
    StripPadded(j, lead, trail);
  }

  /** The blank the scan puts for leading whitespace. */
  function Lead(s: string): string {
    if s != [] && IsSpace(s[0]) then " " else ""
  }

  /** The scan is a blank for leading whitespace, the words joined by blanks, and a blank
      for trailing whitespace. */
  lemma CollapseShape(s: string)
    ensures Collapse(s) == Lead(s) + (Join(Words(s), " ") + Trail(s))
  {
    CollapseLead(s);
    CollapseWordsTail(s);
  }

  /** Words joined by blanks neither start nor end with whitespace. */
  lemma JoinEnds(ws: seq<string>)
    requires AllWords(ws)
    ensures var j := Join(ws, " "); j == [] || (!IsSpace(j[0]) && !IsSpace(j[|j| - 1]))
  {
    JoinWordsClean(ws);
  }

  /** Leading whitespace becomes one blank in front of the scan of the rest. */
  lemma CollapseLead(s: string)
    ensures Collapse(s) == Lead(s) + Collapse(DropSpaces(s))
  {
    if s != [] && IsSpace(s[0]) {
      assert DropSpaces(s) == DropSpaces(s[1..]);
    } else {
      assert DropSpaces(s) == s;
      assert "" + Collapse(s) == Collapse(s);
    }
  }

  /** A trailing blank only ever follows a word. */
  lemma TrailAfterWord(s: string)
    ensures Trail(s) == "" || Join(Words(s), " ") != []
  {
    if DropSpaces(s) != [] {
      WordsStep(s);
      var ws := Words(s);
      assert ws[0] != [];
      if |ws| > 1 {
        assert Join(ws, " ") == ws[0] + " " + Join(ws[1..], " ");
      }
    }
  }

  /** Stripping text that neither starts nor ends in whitespace, with at most one blank on
      either side, gives the text. */
  lemma StripPadded(j: string, lead: string, trail: string)
    requires j == [] || (!IsSpace(j[0]) && !IsSpace(j[|j| - 1]))
    requires lead == "" || lead == " "
    requires trail == "" || trail == " "
    requires j == [] ==> trail == ""
    ensures Strip(lead + (j + trail)) == j
  {
    var body := j + trail;
    if lead == " " {
      assert DropSpaces(lead + body) == DropSpaces(body) by {
        assert (lead + body)[1..] == body;
      }
    } else {
      assert lead + body == body;
    }
    StripTrail(j, trail);
  }

  lemma StripTrail(j: string, trail: string)
    requires j == [] || (!IsSpace(j[0]) && !IsSpace(j[|j| - 1]))
    requires trail == "" || trail == " "
    requires j == [] ==> trail == ""
    ensures Strip(j + trail) == j
  {
    var body := j + trail;
    if j == [] {
      assert body == [];
    } else if trail == " " {
      assert body[0] == j[0];
      assert DropSpaces(body) == body;
      assert body[..|body| - 1] == j;
      assert IsSpace(body[|body| - 1]);
      assert DropTrailingSpaces(body) == DropTrailingSpaces(j);
    } else {
      assert body == j;
    }
  }

  /** Non-empty words without whitespace joined by blanks make clean text. */
  lemma {:induction false} JoinWordsClean(ws: seq<string>)
    requires AllWords(ws)
    ensures IsClean(Join(ws, " "))
  {
    if |ws| > 1 {
      var w := ws[0];
      var j := Join(ws[1..], " ");
      JoinWordsClean(ws[1..]);
      var r := w + " " + j;
      assert Join(ws, " ") == r;
      forall i | 0 <= i < |r| && IsSpace(r[i])
        ensures r[i] == ' '
      {
        if i > |w| { assert r[i] == j[i - |w| - 1]; }
      }
      forall i | 0 <= i < |r| - 1 && IsSpace(r[i])
        ensures !IsSpace(r[i + 1])
      {
        if i > |w| { assert r[i] == j[i - |w| - 1] && r[i + 1] == j[i - |w|]; }
      }
    }
  }

  /** Splitting words joined by blanks gives the words back. */
  lemma {:induction false} WordsOfJoin(ws: seq<string>)
    requires AllWords(ws)
    ensures Words(Join(ws, " ")) == ws
  {
    if |ws| == 1 {
      WordsOfOne(ws[0]);
    } else if |ws| > 1 {
      WordsOfJoin(ws[1..]);
      WordsOfJoinStep(ws);
    }
  }

  lemma WordsOfJoinStep(ws: seq<string>)
    requires |ws| > 1 && IsWord(ws[0]) && Words(Join(ws[1..], " ")) == ws[1..]
    ensures Words(Join(ws, " ")) == ws
  {
    var w := ws[0];
    var j := Join(ws[1..], " ");
    assert Join(ws, " ") == w + (" " + j) by { Seqs.Assoc2(w, " ", j); }
    WordsOfCons(w, j);
    assert ws == [w] + ws[1..];
  }

  lemma WordsOfOne(w: string)
    requires IsWord(w)
    ensures Words(w) == [w]
  {
    WordOfWord(w, "");
    assert w + "" == w;
    WordsFront(w, w);
    assert w[|w|..] == [];
  }

  lemma WordsOfCons(w: string, j: string)
    requires IsWord(w)
    ensures Words(w + (" " + j)) == [w] + Words(j)
  {
    WordsOfConsSpace(w, ' ', j);
    assert " " + j == [' '] + j;
  }

  /** A word followed by whitespace, then more text. */
  lemma WordsOfConsSpace(w: string, c: char, j: string)
    requires IsWord(w) && IsSpace(c)
    ensures Words(w + ([c] + j)) == [w] + Words(j)
  {
    var r := w + ([c] + j);
    WordOfWord(w, [c] + j);
    WordsFront(r, w);
    assert r[|w|..] == [c] + j;
    WordsSpace(c, j);
  }

  /** `Words` of text that starts with its first word. */
  lemma WordsFront(r: string, w: string)
    requires r != [] && DropSpaces(r) == r && Word(r) == w
    ensures Words(r) == [w] + Words(r[|w|..])
  {
  }

  /** Whitespace in front changes no word. */
  lemma WordsSpace(c: char, x: string)
    requires IsSpace(c)
    ensures Words([c] + x) == Words(x)
  {
    assert DropSpaces([c] + x) == DropSpaces(x) by { assert ([c] + x)[1..] == x; }
  }

  /** The word at the front of `w + rest`, when `rest` is empty or starts with whitespace. */
  lemma {:induction false} WordOfWord(w: string, rest: string)
    requires w != [] && NoSpace(w)
    requires rest == [] || IsSpace(rest[0])
    ensures DropSpaces(w + rest) == w + rest
    ensures Word(w + rest) == w
  {
    if |w| > 1 {
      WordOfWord(w[1..], rest);
      assert (w + rest)[1..] == w[1..] + rest;
    } else {
      assert (w + rest)[1..] == rest;
    }
  }

  /** Clean text is its own words joined by blanks. */
  lemma {:induction false} CleanWords(c: string)
    requires IsClean(c)
    ensures Join(Words(c), " ") == c
    decreases |c|
  {
    if c != [] {
      var w := Word(c);
      var rest := c[|w|..];
      WordPrefix(c);
      assert IsWord(w);
      if rest == [] {
        assert c == w;
        WordsOfOne(w);
      } else {
        var tail := rest[1..];
        CleanRest(c, w, rest);
        CleanWords(tail);
        assert c == w + (" " + tail);
        WordsOfCons(w, tail);
        assert DropSpaces(tail) == tail;
        JoinCons(w, Words(tail));
        Seqs.Assoc2(w, " ", tail);
      }
    }
  }

  /** Joining a word in front of at least one more. */
  lemma JoinCons(w: string, tw: seq<string>)
    requires tw != []
    ensures Join([w] + tw, " ") == w + " " + Join(tw, " ")
  {
    assert ([w] + tw)[1..] == tw;
  }

  /** In clean text, a word is followed by one blank and clean text that starts a word. */
  lemma CleanRest(c: string, w: string, rest: string)
    requires IsClean(c) && c == w + rest && rest != []
    requires IsSpace(c[|w|])
    ensures rest == " " + rest[1..]
    ensures rest[1..] != [] && !IsSpace(rest[1..][0]) && IsClean(rest[1..])
  {
    assert c[|w|] == rest[0] == ' ';
    assert |w| + 1 < |c|;
    assert c[|w| + 1] == rest[1];
    CleanTail(c, |w| + 1);
    assert c[|w| + 1..] == rest[1..];
  }

  /** A suffix of clean text that starts after a blank is clean. */
  lemma CleanTail(c: string, k: nat)
    requires IsClean(c) && 0 < k < |c| && !IsSpace(c[k])
    ensures IsClean(c[k..])
  {
    var t := c[k..];
    assert forall i :: 0 <= i < |t| ==> t[i] == c[k + i];
  }
}
