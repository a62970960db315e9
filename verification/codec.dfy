/** `json.dumps` with Python's default settings (separators `", "` and `": "`,
    `ensure_ascii=True`, keys in insertion order) and `json.loads` for the integer
    subset of JSON, together with the round trip `Loads(Dumps(j)) == Some(j)`. */
module JsonCodec {
  import opened Results
  import opened Text
  import opened Json
  import opened Seqs

  // ---------------------------------------------------------------- dumps

  /** Every character is printable ASCII, as `ensure_ascii` output is. */
  predicate Printable(s: string) {
    forall c :: c in s ==> ' ' <= c <= '~'
  }

  function HexDigit(d: nat): (c: char)
    requires d < 16
    ensures ' ' <= c <= '~'
  {
    if d < 10 then DigitChar(d) else ('a' as int + d - 10) as char
  }

  /** Four lower-case hex digits, as `'\\u{0:04x}'` prints them. */
  function Hex4(n: nat): (r: string)
    requires n < 0x10000
    ensures Printable(r)
  {
    [HexDigit(n / 16 / 16 / 16), HexDigit(n / 16 / 16 % 16), HexDigit(n / 16 % 16), HexDigit(n % 16)]
  }

  /** How `ensure_ascii` output spells one character of a string. */
  function EscapeChar(c: char): (r: string)
    ensures Printable(r)
  {
    if c == '"' then "\\\""
    else if c == '\\' then "\\\\"
    else if c == '\n' then "\\n"
    else if c == '\r' then "\\r"
    else if c == '\t' then "\\t"
    else if c == '\U{8}' then "\\b"
    else if c == '\U{c}' then "\\f"
    else if ' ' <= c <= '~' then [c]
    else if (c as int) < 0x10000 then "\\u" + Hex4(c as int)
    else
      var v := c as int - 0x10000;
      "\\u" + Hex4(0xD800 + v / 0x400) + "\\u" + Hex4(0xDC00 + v % 0x400)
  }

  function EscapeText(s: string): (r: string)
    ensures Printable(r)
  {
    if s == [] then "" else EscapeChar(s[0]) + EscapeText(s[1..])
  }

  function Quote(s: string): (r: string)
    ensures Printable(r)
  {
    "\"" + EscapeText(s) + "\""
  }

  /** `json.dumps(j)`: a single line of printable ASCII, whatever the strings in `j` hold. */
  function Dumps(j: Json): (r: string)
    ensures Printable(r)
    decreases j
  {
    match j
    case Null => "null"
    case Bool(b) => if b then "true" else "false"
    case Int(i) =>
      assert Printable(NatText(if i < 0 then -i else i));
      IntText(i)
    case Str(s) => Quote(s)
    case Arr(items) =>
      if items == [] then "[]" else "[" + Dumps(items[0]) + MoreItems(items[1..]) + "]"
    case Obj(ms) =>
      if ms == [] then "{}" else "{" + MemberText(ms[0]) + MoreMembers(ms[1..]) + "}"
  }

  function MoreItems(xs: seq<Json>): (r: string)
    ensures Printable(r)
    decreases xs
  {
    if xs == [] then "" else ", " + Dumps(xs[0]) + MoreItems(xs[1..])
  }

  function MemberText(m: Member): (r: string)
    ensures Printable(r)
    decreases m
  {
    Quote(m.key) + ": " + Dumps(m.value)
  }

  function MoreMembers(ms: seq<Member>): (r: string)
    ensures Printable(r)
    decreases ms
  {
    if ms == [] then "" else ", " + MemberText(ms[0]) + MoreMembers(ms[1..])
  }

  // ---------------------------------------------------------------- loads

  predicate IsJsonSpace(c: char) {
    c == ' ' || c == '\t' || c == '\n' || c == '\r'
  }

  function SkipWs(s: string): (r: string)
    ensures |r| <= |s|
  {
    if s != [] && IsJsonSpace(s[0]) then SkipWs(s[1..]) else s
  }

  function HexValue(c: char): Option<nat> {
    if '0' <= c <= '9' then Some(c as int - '0' as int)
    else if 'a' <= c <= 'f' then Some(c as int - 'a' as int + 10)
    else if 'A' <= c <= 'F' then Some(c as int - 'A' as int + 10)
    else None
  }

  /** The value of four hex digits at the start of `s`. */
  function Hex4Value(s: string): (r: Option<nat>)
    ensures r.Some? ==> |s| >= 4 && r.value < 0x10000
  {
    if |s| < 4 then None
    else match (HexValue(s[0]), HexValue(s[1]), HexValue(s[2]), HexValue(s[3]))
      case (Some(a), Some(b), Some(c), Some(d)) =>
        if a < 16 && b < 16 && c < 16 && d < 16 then Some(((a * 16 + b) * 16 + c) * 16 + d) else None
      case _ => None
  }

  /** One escape sequence, `s` starting just after the backslash. A high surrogate must be
      followed by an escaped low surrogate; a lone surrogate is rejected. */
  function ParseEscape(s: string): (r: Option<(char, string)>)
    ensures r.Some? ==> |r.value.1| < |s|
  {
    if s == [] then None
    else if s[0] == '"' then Some(('"', s[1..]))
    else if s[0] == '\\' then Some(('\\', s[1..]))
    else if s[0] == '/' then Some(('/', s[1..]))
    else if s[0] == 'b' then Some(('\U{8}', s[1..]))
    else if s[0] == 'f' then Some(('\U{c}', s[1..]))
    else if s[0] == 'n' then Some(('\n', s[1..]))
    else if s[0] == 'r' then Some(('\r', s[1..]))
    else if s[0] == 't' then Some(('\t', s[1..]))
    else if s[0] == 'u' then
      match Hex4Value(s[1..])
      case None => None
      case Some(hi) =>
        if 0xD800 <= hi < 0xDC00 then
          if |s| >= 11 && s[5] == '\\' && s[6] == 'u' then
            match Hex4Value(s[7..])
            case None => None
            case Some(lo) =>
              if 0xDC00 <= lo < 0xE000 then Some(((0x10000 + (hi - 0xD800) * 0x400 + (lo - 0xDC00)) as char, s[11..]))
              else None
          else None
        else if 0xDC00 <= hi < 0xE000 then None
        else Some((hi as char, s[5..]))
    else None
  }

  /** The rest of a string literal after its opening quote; `acc` holds what is decoded so far. */
  function ParseStringBody(s: string, acc: string): (r: Option<(string, string)>)
    ensures r.Some? ==> |r.value.1| < |s|
    decreases |s|
  {
    if s == [] then None
    else if s[0] == '"' then Some((acc, s[1..]))
    else if s[0] == '\\' then
      match ParseEscape(s[1..])
      case None => None
      case Some((c, rest)) => ParseStringBody(rest, acc + [c])
    else if s[0] < ' ' then None
    else ParseStringBody(s[1..], acc + [s[0]])
  }

  function DigitRun(s: string): (k: nat)
    ensures k <= |s|
  {
    if s != [] && IsAsciiDigit(s[0]) then 1 + DigitRun(s[1..]) else 0
  }

  function DigitsValue(d: string): nat {
    if d == [] then 0
    else
      var c := d[|d| - 1];
      var digit: nat := if '0' <= c <= '9' then c as int - '0' as int else 0;
      DigitsValue(d[..|d| - 1]) * 10 + digit
  }

  /** An integer literal: an optional minus, then `0` or a digit run without a leading zero. */
  function ParseNumber(s: string): (r: Option<(Json, string)>)
    ensures r.Some? ==> |r.value.1| < |s|
  {
    var neg := s != [] && s[0] == '-';
    var t := if neg then s[1..] else s;
    if t == [] || !IsAsciiDigit(t[0]) then None
    else if t[0] == '0' then Some((Int(0), t[1..]))
    else
      var k := DigitRun(t);
      var n := DigitsValue(t[..k]);
      var m: int := n;
      var v := if neg then -m else m;
      Some((Int(v), t[k..]))
  }

  /** One JSON value at the very start of `s`, and the text after it. */
  function ParseValue(s: string): (r: Option<(Json, string)>)
    ensures r.Some? ==> |r.value.1| < |s|
    decreases |s|, 0
  {
    if s == [] then None
    else if StartsWith(s, "null") then Some((Null, s[4..]))
    else if StartsWith(s, "true") then Some((Bool(true), s[4..]))
    else if StartsWith(s, "false") then Some((Bool(false), s[5..]))
    else if s[0] == '"' then
      match ParseStringBody(s[1..], "")
      case None => None
      case Some((t, rest)) => Some((Str(t), rest))
    else if s[0] == '[' then ParseArray(SkipWs(s[1..]))
    else if s[0] == '{' then ParseObject(SkipWs(s[1..]))
    else ParseNumber(s)
  }

  /** An array after its `[` and any whitespace. */
  function ParseArray(s: string): (r: Option<(Json, string)>)
    ensures r.Some? ==> |r.value.1| < |s|
    decreases |s|, 1
  {
    if s != [] && s[0] == ']' then Some((Arr([]), s[1..]))
    else
      match ParseValue(s)
      case None => None
      case Some((v, rest)) => ParseArrayTail(SkipWs(rest), [v])
  }

  /** The remaining elements of an array after at least one element; `acc` holds those read. */
  function ParseArrayTail(s: string, acc: seq<Json>): (r: Option<(Json, string)>)
    ensures r.Some? ==> |r.value.1| < |s|
    decreases |s|, 1
  {
    if s == [] then None
    else if s[0] == ']' then Some((Arr(acc), s[1..]))
    else if s[0] == ',' then
      match ParseValue(SkipWs(s[1..]))
      case None => None
      case Some((v, rest)) => ParseArrayTail(SkipWs(rest), acc + [v])
    else None
  }

  /** One `"key": value` member. */
  function ParseMember(s: string): (r: Option<(Member, string)>)
    ensures r.Some? ==> |r.value.1| < |s|
    decreases |s|, 0
  {
    if s == [] || s[0] != '"' then None
    else
      match ParseStringBody(s[1..], "")
      case None => None
      case Some((k, r1)) =>
        var r2 := SkipWs(r1);
        if r2 == [] || r2[0] != ':' then None
        else
          match ParseValue(SkipWs(r2[1..]))
          case None => None
          case Some((v, r3)) => Some((Member(k, v), r3))
  }

  /** An object after its `{` and any whitespace. A repeated key behaves as a dict
      assignment: the first position is kept and the last value wins. */
  function ParseObject(s: string): (r: Option<(Json, string)>)
    ensures r.Some? ==> |r.value.1| < |s|
    decreases |s|, 1
  {
    if s != [] && s[0] == '}' then Some((Obj([]), s[1..]))
    else
      match ParseMember(s)
      case None => None
      case Some((m, rest)) => ParseObjectTail(SkipWs(rest), Put([], m.key, m.value))
  }

  function ParseObjectTail(s: string, acc: seq<Member>): (r: Option<(Json, string)>)
    ensures r.Some? ==> |r.value.1| < |s|
    decreases |s|, 1
  {
    if s == [] then None
    else if s[0] == '}' then Some((Obj(acc), s[1..]))
    else if s[0] == ',' then
      match ParseMember(SkipWs(s[1..]))
      case None => None
      case Some((m, rest)) => ParseObjectTail(SkipWs(rest), Put(acc, m.key, m.value))
    else None
  }

  /** `json.loads(s)`: one value, with optional surrounding whitespace and nothing else. */
  function Loads(s: string): (r: Option<Json>)
    ensures SkipWs(s) == [] ==> r.None?
  {
    match ParseValue(SkipWs(s))
    case None => None
    case Some((v, rest)) => if SkipWs(rest) == [] then Some(v) else None
  }

  // ---------------------------------------------------------------- round trip

  /** What may follow a value inside the text `Dumps` produces. */
  predicate Delimited(rest: string) {
    rest == [] || rest[0] == ',' || rest[0] == ']' || rest[0] == '}'
  }

  /** The text of every value is non-empty and starts with a character that is neither
      whitespace nor a delimiter. */
  lemma DumpsStart(j: Json)
    ensures |Dumps(j)| > 0
    ensures var c := Dumps(j)[0]; !IsJsonSpace(c) && c != ',' && c != ']' && c != '}'
  {
    match j
    case Int(i) =>
      if i < 0 {
        assert Dumps(j)[0] == '-';
      } else {
        assert IsAsciiDigit(NatText(i)[0]);
      }
    case _ =>
  }

  lemma {:induction false} DigitsValueNatText(n: nat)
    ensures DigitsValue(NatText(n)) == n
    decreases n
  {
    if n >= 10 {
      var d := NatText(n);
      DigitsValueNatText(n / 10);
      assert d[..|d| - 1] == NatText(n / 10);
    }
  }

  lemma {:induction false} DigitRunDigits(d: string, rest: string)
    requires forall i :: 0 <= i < |d| ==> IsAsciiDigit(d[i])
    requires rest == [] || !IsAsciiDigit(rest[0])
    ensures DigitRun(d + rest) == |d|
  {
    if d != [] {
      assert (d + rest)[1..] == d[1..] + rest;
      DigitRunDigits(d[1..], rest);
    } else {
      assert d + rest == rest;
    }
  }

  lemma ParseNumberText(i: int, rest: string)
    requires rest == [] || !IsAsciiDigit(rest[0])
    ensures ParseNumber(IntText(i) + rest) == Some((Int(i), rest))
  {
    if i < 0 {
      ParseNegative(-i, rest);
      assert IntText(i) + rest == "-" + (NatText(-i) + rest);
    } else {
      ParseUnsigned(i, rest);
    }
  }

  lemma ParseUnsigned(n: nat, rest: string)
    requires rest == [] || !IsAsciiDigit(rest[0])
    ensures ParseNumber(NatText(n) + rest) == Some((Int(n), rest))
  {
    NatTextParses(n, rest);
  }

  lemma ParseNegative(n: nat, rest: string)
    requires n > 0 && (rest == [] || !IsAsciiDigit(rest[0]))
    ensures ParseNumber("-" + (NatText(n) + rest)) == Some((Int(-(n as int)), rest))
  {
    var t := NatText(n) + rest;
    NatTextParses(n, rest);
    assert ("-" + t)[0] == '-' && ("-" + t)[1..] == t;
  }

  /** The digits of `n` followed by a non-digit: the digit run is exactly the digits, and
      their value is `n`; a leading `0` happens only for 0 itself. */
  lemma NatTextParses(n: nat, rest: string)
    requires rest == [] || !IsAsciiDigit(rest[0])
    ensures var t := NatText(n) + rest;
            && t != [] && IsAsciiDigit(t[0]) && (t[0] == '0' <==> n == 0)
            && (n == 0 ==> t[1..] == rest)
            && (n != 0 ==> DigitRun(t) == |NatText(n)| && DigitsValue(t[..DigitRun(t)]) == n
                           && t[DigitRun(t)..] == rest)
  {
    var d := NatText(n);
    var t := d + rest;
    assert t[0] == d[0];
    if n == 0 {
      assert d == "0";
      assert t[1..] == rest;
    } else {
      DigitRunDigits(d, rest);
      assert t[..|d|] == d;
      assert t[|d|..] == rest;
      DigitsValueNatText(n);
    }
  }

  lemma Hex4Digits(n: nat)
    requires n < 0x10000
    ensures Hex4Value(Hex4(n)) == Some(n)
  {
    var q1 := n / 16;
    var q2 := q1 / 16;
    var q3 := q2 / 16;
    assert n == q1 * 16 + n % 16;
    assert q1 == q2 * 16 + q1 % 16;
    assert q2 == q3 * 16 + q2 % 16;
    assert q3 < 16;
    var h := Hex4(n);
    HexDigitValue(q3);
    HexDigitValue(q2 % 16);
    HexDigitValue(q1 % 16);
    HexDigitValue(n % 16);
    assert h[0] == HexDigit(q3) && h[1] == HexDigit(q2 % 16) && h[2] == HexDigit(q1 % 16) && h[3] == HexDigit(n % 16);
  }

  lemma HexDigitValue(d: nat)
    requires d < 16
    ensures HexValue(HexDigit(d)) == Some(d)
  {
  }


  lemma Hex4Prefix(n: nat, rest: string)
    requires n < 0x10000
    ensures Hex4Value(Hex4(n) + rest) == Some(n)
  {
    Hex4Digits(n);
    var s := Hex4(n) + rest;
    assert s[0] == Hex4(n)[0] && s[1] == Hex4(n)[1] && s[2] == Hex4(n)[2] && s[3] == Hex4(n)[3];
  }

  /** An escaped character decodes back to itself. */
  lemma EscapeCharParses(c: char, tail: string, acc: string)
    ensures ParseStringBody(EscapeChar(c) + tail, acc) == ParseStringBody(tail, acc + [c])
  {
    if c == '"' || c == '\\' || c == '\n' || c == '\r' || c == '\t' || c == '\U{8}' || c == '\U{c}' {
      ShortEscapeParses(c, tail, acc);
    } else if ' ' <= c <= '~' {
      var s := EscapeChar(c) + tail;
      assert s[0] == c && s[1..] == tail;
    } else if (c as int) < 0x10000 {
      BmpEscapeParses(c, tail, acc);
    } else {
      AstralEscapeParses(c, tail, acc);
    }
  }

  lemma ShortEscapeParses(c: char, tail: string, acc: string)
    requires c == '"' || c == '\\' || c == '\n' || c == '\r' || c == '\t' || c == '\U{8}' || c == '\U{c}'
    ensures ParseStringBody(EscapeChar(c) + tail, acc) == ParseStringBody(tail, acc + [c])
  {
    var e := EscapeChar(c);
    var s := e + tail;
    assert |e| == 2 && e[0] == '\\';
    assert s[0] == '\\' && s[1..] == [e[1]] + tail;
    assert ParseEscape(s[1..]) == Some((c, tail));
  }

  lemma BmpEscapeParses(c: char, tail: string, acc: string)
    requires !(' ' <= c <= '~') && c != '\n' && c != '\r' && c != '\t' && c != '\U{8}' && c != '\U{c}'
    requires (c as int) < 0x10000
    ensures ParseStringBody(EscapeChar(c) + tail, acc) == ParseStringBody(tail, acc + [c])
  {
    var n := c as int;
    var s := EscapeChar(c) + tail;
    assert EscapeChar(c) == "\\u" + Hex4(n);
    var u := s[1..];
    assert s[0] == '\\';
    assert u == "u" + Hex4(n) + tail;
    assert u[1..] == Hex4(n) + tail;
    Hex4Prefix(n, tail);
    assert u[5..] == tail;
    assert ParseEscape(u) == Some((c, tail));
  }

  /** The surrogate pair `ensure_ascii` writes for a character outside the basic plane. */
  lemma SurrogatePair(c: char) returns (hi: nat, lo: nat)
    requires (c as int) >= 0x10000
    ensures hi == 0xD800 + (c as int - 0x10000) / 0x400 && lo == 0xDC00 + (c as int - 0x10000) % 0x400
    ensures 0xD800 <= hi < 0xDC00 && 0xDC00 <= lo < 0xE000
    ensures 0x10000 + (hi - 0xD800) * 0x400 + (lo - 0xDC00) == c as int
  {
    var v := c as int - 0x10000;
    hi := 0xD800 + v / 0x400;
    lo := 0xDC00 + v % 0x400;
    assert v == (v / 0x400) * 0x400 + v % 0x400;
  }

  lemma AstralEscapeParses(c: char, tail: string, acc: string)
    requires (c as int) >= 0x10000
    ensures ParseStringBody(EscapeChar(c) + tail, acc) == ParseStringBody(tail, acc + [c])
  {
    var hi, lo := SurrogatePair(c);
    var s := EscapeChar(c) + tail;
    assert EscapeChar(c) == "\\u" + Hex4(hi) + "\\u" + Hex4(lo);
    var u := s[1..];
    assert s[0] == '\\';
    assert u == "u" + Hex4(hi) + "\\u" + Hex4(lo) + tail;
    SurrogateEscapeParses(hi, lo, tail);
  }

  /** A `\uD8xx\uDCxx` pair reads as the one character it encodes. */
  lemma SurrogateEscapeParses(hi: nat, lo: nat, tail: string)
    requires 0xD800 <= hi < 0xDC00 && 0xDC00 <= lo < 0xE000
    ensures var c := 0x10000 + (hi - 0xD800) * 0x400 + (lo - 0xDC00);
      ParseEscape("u" + Hex4(hi) + "\\u" + Hex4(lo) + tail) == Some((c as char, tail))
  {
    var u := "u" + Hex4(hi) + "\\u" + Hex4(lo) + tail;
    assert u[1..] == Hex4(hi) + ("\\u" + Hex4(lo) + tail);
    Hex4Prefix(hi, "\\u" + Hex4(lo) + tail);
    assert u[5] == '\\' && u[6] == 'u';
    assert u[7..] == Hex4(lo) + tail;
    Hex4Prefix(lo, tail);
    assert u[11..] == tail;
  }

  lemma {:induction false} EscapeTextParses(t: string, rest: string, acc: string)
    ensures ParseStringBody(EscapeText(t) + "\"" + rest, acc) == Some((acc + t, rest))
  {
    if t == [] {
      var s := EscapeText(t) + "\"" + rest;
      assert s == "\"" + rest;
      assert s[0] == '"' && s[1..] == rest;
      assert acc + t == acc;
    } else {
      var tail := EscapeText(t[1..]) + "\"" + rest;
      assert EscapeText(t) == EscapeChar(t[0]) + EscapeText(t[1..]);
      Assoc3(EscapeChar(t[0]), EscapeText(t[1..]), "\"", rest);
      EscapeCharParses(t[0], tail, acc);
      EscapeTextParses(t[1..], rest, acc + [t[0]]);
      ConsSplit(acc, t);
    }
  }

  lemma QuoteParses(t: string, rest: string)
    ensures ParseStringBody((Quote(t) + rest)[1..], "") == Some((t, rest))
  {
    assert (Quote(t) + rest)[1..] == EscapeText(t) + "\"" + rest;
    EscapeTextParses(t, rest, "");
    assert "" + t == t;
  }

  /** How `ParseValue` dispatches on the first character of its input. */
  lemma ParseValueOn(s: string)
    requires s != []
    ensures s[0] == '[' ==> ParseValue(s) == ParseArray(SkipWs(s[1..]))
    ensures s[0] == '{' ==> ParseValue(s) == ParseObject(SkipWs(s[1..]))
    ensures s[0] == '"' ==> ParseValue(s) == match ParseStringBody(s[1..], "")
                                            case None => None
                                            case Some((t, rest)) => Some((Str(t), rest))
    ensures (s[0] == '-' || IsAsciiDigit(s[0])) ==> ParseValue(s) == ParseNumber(s)
  {
    assert s[0] != 'n' ==> !StartsWith(s, "null");
    assert s[0] != 't' ==> !StartsWith(s, "true");
    assert s[0] != 'f' ==> !StartsWith(s, "false");
  }

  lemma ParseDumpsScalar(j: Json, rest: string)
    requires !j.Arr? && !j.Obj?
    requires Delimited(rest)
    ensures ParseValue(Dumps(j) + rest) == Some((j, rest))
  {
    var s := Dumps(j) + rest;
    match j
    case Null =>
      assert s[..4] == "null" && s[4..] == rest;
    case Bool(b) =>
      if b {
        assert s[..4] == "true" && s[4..] == rest;
      } else {
        assert s[0] == 'f';
        assert !StartsWith(s, "null") && !StartsWith(s, "true");
        assert s[..5] == "false" && s[5..] == rest;
      }
    case Int(i) =>
      DumpsStart(j);
      assert s[0] == Dumps(j)[0];
      ParseValueOn(s);
      ParseNumberText(i, rest);
    case Str(t) =>
      assert s[0] == '"';
      ParseValueOn(s);
      QuoteParses(t, rest);
  }

  /** Parsing the text of a well-formed value gives the value back and stops right after it. */
  lemma {:induction false} ParseDumps(j: Json, rest: string)
    requires WellFormed(j)
    requires Delimited(rest)
    ensures ParseValue(Dumps(j) + rest) == Some((j, rest))
    decreases j, 1
  {
    match j
    case Arr(items) =>
      if items == [] {
        var s := Dumps(j) + rest;
        assert s == "[" + ("]" + rest);
        ParseValueOn(s);
        assert s[1..] == "]" + rest;
      } else {
        ParseNonEmptyArray(items, rest);
      }
    case Obj(ms) =>
      if ms == [] {
        var s := Dumps(j) + rest;
        assert s == "{" + ("}" + rest);
        ParseValueOn(s);
        assert s[1..] == "}" + rest;
      } else {
        ParseNonEmptyObject(ms, rest);
      }
    case _ =>
      ParseDumpsScalar(j, rest);
  }

  lemma {:induction false} ParseNonEmptyArray(items: seq<Json>, rest: string)
    requires items != []
    requires WellFormed(Arr(items))
    requires Delimited(rest)
    ensures ParseValue(Dumps(Arr(items)) + rest) == Some((Arr(items), rest))
    decreases Arr(items), 0
  {
    var x := items[0];
    var tail := MoreItems(items[1..]) + "]" + rest;
    ItemsTailDelimited(items[1..], rest);
    ParseDumps(x, tail);
    ArrayOpen(items, rest);
    ArrayStep(Dumps(x) + tail, x, tail);
    ParseItemsDumps(items[1..], [x], rest);
    assert [x] + items[1..] == items;
  }

  /** The text after an array element starts with `,` or `]`. */
  lemma ItemsTailDelimited(xs: seq<Json>, rest: string)
    ensures var t := MoreItems(xs) + "]" + rest; t != [] && (t[0] == ',' || t[0] == ']')
  {
    if xs != [] {
      assert MoreItems(xs)[0] == ',';
    }
  }

  /** The text after an object member starts with `,` or `}`. */
  lemma MembersTailDelimited(ms: seq<Member>, rest: string)
    ensures var t := MoreMembers(ms) + "}" + rest; t != [] && (t[0] == ',' || t[0] == '}')
  {
    if ms != [] {
      assert MoreMembers(ms)[0] == ',';
    }
  }

  /** Reading `[` of a non-empty array hands its first element to `ParseArray`. */
  lemma ArrayOpen(items: seq<Json>, rest: string)
    requires items != []
    ensures ParseValue(Dumps(Arr(items)) + rest)
         == ParseArray(Dumps(items[0]) + (MoreItems(items[1..]) + "]" + rest))
  {
    var s := Dumps(Arr(items)) + rest;
    var u := Dumps(items[0]) + (MoreItems(items[1..]) + "]" + rest);
    assert s == "[" + u;
    assert s[0] == '[' && s[1..] == u;
    ParseValueOn(s);
    DumpsStart(items[0]);
  }

  /** Reading `{` of a non-empty object hands its first member to `ParseObject`. */
  lemma ObjectOpen(ms: seq<Member>, rest: string)
    requires ms != []
    ensures ParseValue(Dumps(Obj(ms)) + rest)
         == ParseObject(MemberText(ms[0]) + (MoreMembers(ms[1..]) + "}" + rest))
  {
    var s := Dumps(Obj(ms)) + rest;
    var u := MemberText(ms[0]) + (MoreMembers(ms[1..]) + "}" + rest);
    assert s == "{" + u;
    assert s[0] == '{' && s[1..] == u;
    ParseValueOn(s);
    assert MemberText(ms[0])[0] == '"';
  }

  lemma ArrayStep(u: string, x: Json, tail: string)
    requires u != [] && u[0] != ']'
    requires ParseValue(u) == Some((x, tail))
    requires tail != [] && (tail[0] == ',' || tail[0] == ']')
    ensures ParseArray(u) == ParseArrayTail(tail, [x])
  {
  }

  lemma ObjectStep(u: string, m: Member, tail: string)
    requires u != [] && u[0] != '}'
    requires ParseMember(u) == Some((m, tail))
    requires tail != [] && (tail[0] == ',' || tail[0] == '}')
    ensures ParseObject(u) == ParseObjectTail(tail, [m])
  {
  }

  lemma {:induction false} ParseNonEmptyObject(ms: seq<Member>, rest: string)
    requires ms != []
    requires WellFormed(Obj(ms))
    requires Delimited(rest)
    ensures ParseValue(Dumps(Obj(ms)) + rest) == Some((Obj(ms), rest))
    decreases Obj(ms), 0
  {
    var m := ms[0];
    var tail := MoreMembers(ms[1..]) + "}" + rest;
    MembersTailDelimited(ms[1..], rest);
    ParseMemberDumps(m, tail);
    ObjectOpen(ms, rest);
    assert MemberText(m)[0] == '"';
    ObjectStep(MemberText(m) + tail, m, tail);
    assert [m] + ms[1..] == ms;
    ParseMembersDumps(ms[1..], [m], rest);
  }

  lemma {:induction false} ParseItemsDumps(xs: seq<Json>, acc: seq<Json>, rest: string)
    requires forall i :: 0 <= i < |xs| ==> WellFormed(xs[i])
    ensures ParseArrayTail(MoreItems(xs) + "]" + rest, acc) == Some((Arr(acc + xs), rest))
    decreases xs
  {
    var s := MoreItems(xs) + "]" + rest;
    if xs == [] {
      assert s == "]" + rest;
      assert acc + xs == acc;
    } else {
      var x := xs[0];
      var tail := MoreItems(xs[1..]) + "]" + rest;
      ItemsTailDelimited(xs[1..], rest);
      ParseDumps(x, tail);
      ParseItemsDumps(xs[1..], acc + [x], rest);
      ItemsCons(xs, acc, rest);
    }
  }

  /** The elements of an array parse when the first one and the rest do. */
  lemma ItemsCons(xs: seq<Json>, acc: seq<Json>, rest: string)
    requires xs != []
    requires ParseValue(Dumps(xs[0]) + (MoreItems(xs[1..]) + "]" + rest))
          == Some((xs[0], MoreItems(xs[1..]) + "]" + rest))
    requires ParseArrayTail(MoreItems(xs[1..]) + "]" + rest, acc + [xs[0]])
          == Some((Arr(acc + [xs[0]] + xs[1..]), rest))
    ensures ParseArrayTail(MoreItems(xs) + "]" + rest, acc) == Some((Arr(acc + xs), rest))
  {
    var tail := MoreItems(xs[1..]) + "]" + rest;
    ItemsTailDelimited(xs[1..], rest);
    ItemStep(xs, rest);
    ArrayTailStep(MoreItems(xs) + "]" + rest, acc, xs[0], tail);
    ConsSplit(acc, xs);
  }

  /** The text of the elements after the first starts with `, ` and the next element. */
  lemma ItemStep(xs: seq<Json>, rest: string)
    requires xs != []
    ensures var s := MoreItems(xs) + "]" + rest;
      s != [] && s[0] == ',' && SkipWs(s[1..]) == Dumps(xs[0]) + (MoreItems(xs[1..]) + "]" + rest)
  {
    var u := Dumps(xs[0]) + (MoreItems(xs[1..]) + "]" + rest);
    assert MoreItems(xs) == ", " + Dumps(xs[0]) + MoreItems(xs[1..]);
    Assoc(", ", Dumps(xs[0]), MoreItems(xs[1..]), "]", rest);
    DumpsStart(xs[0]);
    assert u[0] == Dumps(xs[0])[0];
    SkipOneSpace(u);
  }

  lemma SkipOneSpace(u: string)
    requires u != [] && !IsJsonSpace(u[0])
    ensures SkipWs(", " + u) [1..] == " " + u
    ensures SkipWs((", " + u)[1..]) == u
  {
    assert (", " + u)[1..] == " " + u;
    assert (" " + u)[1..] == u;
  }

  /** One step of `ParseArrayTail` over `", " + <element> + tail`. */
  lemma ArrayTailStep(s: string, acc: seq<Json>, x: Json, tail: string)
    requires s != [] && s[0] == ','
    requires ParseValue(SkipWs(s[1..])) == Some((x, tail))
    requires tail != [] && (tail[0] == ',' || tail[0] == ']')
    ensures ParseArrayTail(s, acc) == ParseArrayTail(tail, acc + [x])
  {
  }

  lemma {:induction false} ParseMemberDumps(m: Member, rest: string)
    requires WellFormed(m.value)
    requires Delimited(rest)
    ensures ParseMember(MemberText(m) + rest) == Some((m, rest))
    decreases m
  {
    ParseDumps(m.value, rest);
    MemberParses(m, rest);
  }

  /** A member's text parses as the member once its value's text parses as the value. */
  lemma {:induction false} MemberParses(m: Member, rest: string)
    requires ParseValue(Dumps(m.value) + rest) == Some((m.value, rest))
    ensures ParseMember(MemberText(m) + rest) == Some((m, rest))
  {
    DumpsStart(m.value);
    KeyThenValue(m.key, Dumps(m.value) + rest);
    Assoc2(Quote(m.key) + ": ", Dumps(m.value), rest);
  }

  /** After a key and its colon, a member's value is parsed from the first character that
      is not whitespace. */
  lemma {:induction false} KeyThenValue(k: string, t: string)
    requires t != [] && !IsJsonSpace(t[0])
    ensures ParseMember(Quote(k) + ": " + t)
         == match ParseValue(t)
            case None => None
            case Some((v, r)) => Some((Member(k, v), r))
  {
    var after := ": " + t;
    assert Quote(k) + ": " + t == Quote(k) + after;
    QuoteParses(k, after);
    assert SkipWs(after) == after;
    assert after[1..] == " " + t;
    assert SkipWs(" " + t) == t by {
      assert (" " + t)[1..] == t;
    }
  }

  lemma {:induction false} ParseMembersDumps(ms: seq<Member>, acc: seq<Member>, rest: string)
    requires DistinctKeys(acc + ms)
    requires forall i :: 0 <= i < |ms| ==> WellFormed(ms[i].value)
    ensures ParseObjectTail(MoreMembers(ms) + "}" + rest, acc) == Some((Obj(acc + ms), rest))
    decreases ms
  {
    var s := MoreMembers(ms) + "}" + rest;
    if ms == [] {
      assert s == "}" + rest;
      assert acc + ms == acc;
    } else {
      var m := ms[0];
      var tail := MoreMembers(ms[1..]) + "}" + rest;
      MembersTailDelimited(ms[1..], rest);
      ParseMemberDumps(m, tail);
      FreshKey(acc, ms);
      ParseMembersDumps(ms[1..], acc + [m], rest);
      MembersCons(ms, acc, rest);
    }
  }

  /** The members of an object parse when the first one and the rest do. */
  lemma MembersCons(ms: seq<Member>, acc: seq<Member>, rest: string)
    requires ms != [] && DistinctKeys(acc + ms)
    requires ParseMember(MemberText(ms[0]) + (MoreMembers(ms[1..]) + "}" + rest))
          == Some((ms[0], MoreMembers(ms[1..]) + "}" + rest))
    requires ParseObjectTail(MoreMembers(ms[1..]) + "}" + rest, acc + [ms[0]])
          == Some((Obj(acc + [ms[0]] + ms[1..]), rest))
    ensures ParseObjectTail(MoreMembers(ms) + "}" + rest, acc) == Some((Obj(acc + ms), rest))
  {
    MembersFirstStep(ms, acc, rest);
    ConsSplit(acc, ms);
  }

  /** Reading the first of the remaining members of a distinct-key object appends it. */
  lemma MembersFirstStep(ms: seq<Member>, acc: seq<Member>, rest: string)
    requires ms != [] && DistinctKeys(acc + ms)
    requires ParseMember(MemberText(ms[0]) + (MoreMembers(ms[1..]) + "}" + rest))
          == Some((ms[0], MoreMembers(ms[1..]) + "}" + rest))
    ensures ParseObjectTail(MoreMembers(ms) + "}" + rest, acc)
         == ParseObjectTail(MoreMembers(ms[1..]) + "}" + rest, acc + [ms[0]])
  {
    var tail := MoreMembers(ms[1..]) + "}" + rest;
    MembersTailDelimited(ms[1..], rest);
    MemberStep(ms, rest);
    ObjectTailStep(MoreMembers(ms) + "}" + rest, acc, ms[0], tail);
    FreshKey(acc, ms);
  }

  /** The text of the members after the first starts with `, ` and the next member. */
  lemma MemberStep(ms: seq<Member>, rest: string)
    requires ms != []
    ensures var s := MoreMembers(ms) + "}" + rest;
      s != [] && s[0] == ',' && SkipWs(s[1..]) == MemberText(ms[0]) + (MoreMembers(ms[1..]) + "}" + rest)
  {
    var u := MemberText(ms[0]) + (MoreMembers(ms[1..]) + "}" + rest);
    MoreMembersCons(ms, rest);
    MemberTextStart(ms[0]);
    assert u[0] == '"';
    SkipOneSpace(u);
  }

  lemma MoreMembersCons(ms: seq<Member>, rest: string)
    requires ms != []
    ensures MoreMembers(ms) + "}" + rest == ", " + (MemberText(ms[0]) + (MoreMembers(ms[1..]) + "}" + rest))
  {
    assert MoreMembers(ms) == ", " + MemberText(ms[0]) + MoreMembers(ms[1..]);
    Assoc(", ", MemberText(ms[0]), MoreMembers(ms[1..]), "}", rest);
  }

  lemma MemberTextStart(m: Member)
    ensures |MemberText(m)| > 0 && MemberText(m)[0] == '"'
  {
    assert MemberText(m) == "\"" + (EscapeText(m.key) + "\"" + ": " + Dumps(m.value));
  }

  /** The next key of a distinct-key list is not among the keys already read. */
  lemma FreshKey(acc: seq<Member>, ms: seq<Member>)
    requires ms != [] && DistinctKeys(acc + ms)
    ensures Put(acc, ms[0].key, ms[0].value) == acc + [ms[0]]
    ensures DistinctKeys(acc + [ms[0]] + ms[1..])
  {
    forall i | 0 <= i < |acc|
      ensures acc[i].key != ms[0].key
    {
      assert (acc + ms)[i] == acc[i] && (acc + ms)[|acc|] == ms[0];
    }
    LookupAbsent(acc, ms[0].key);
    assert acc + [ms[0]] + ms[1..] == acc + ms;
  }

  /** One step of `ParseObjectTail` over `", " + <member> + tail`. */
  lemma ObjectTailStep(s: string, acc: seq<Member>, m: Member, tail: string)
    requires s != [] && s[0] == ','
    requires ParseMember(SkipWs(s[1..])) == Some((m, tail))
    requires tail != [] && (tail[0] == ',' || tail[0] == '}')
    ensures ParseObjectTail(s, acc) == ParseObjectTail(tail, Put(acc, m.key, m.value))
  {
  }

  /** `json.loads(json.dumps(j)) == j` for every value a Python program can hold. */
  lemma LoadsDumps(j: Json)
    requires WellFormed(j)
    ensures Loads(Dumps(j)) == Some(j)
  {
    DumpsStart(j);
    assert SkipWs(Dumps(j)) == Dumps(j);
    ParseDumps(j, "");
    assert Dumps(j) + "" == Dumps(j);
  }

  lemma LoadsDumpsWhen(j: Json)
    ensures WellFormed(j) ==> Loads(Dumps(j)) == Some(j)
  {
    if WellFormed(j) {
      LoadsDumps(j);
    }
  }

  /** Distinct well-formed values have distinct texts. */
  lemma DumpsInjective(a: Json, b: Json)
    requires WellFormed(a) && WellFormed(b)
    requires Dumps(a) == Dumps(b)
    ensures a == b
  {
    LoadsDumps(a);
    LoadsDumps(b);
  }
}
