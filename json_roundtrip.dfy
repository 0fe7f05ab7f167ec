/**
 * `json.loads(json.dumps(v)) == v` for every value whose objects are dicts,
 * proved by following the reader through the text the writer produces.
 */
module JsonRoundTrip {
  import opened Wrappers
  import opened JsonValue
  import opened JsonWrite
  import opened JsonRead

  /** What may follow a value that `json.dumps` wrote inside a larger text. */
  predicate Delimited(rest: string)
  {
    rest == [] || rest[0] == ',' || rest[0] == ']' || rest[0] == '}'
  }

  lemma DigitCharValue(d: nat)
    requires d < 10
    ensures DigitChar(d) as int - '0' as int == d
  {
  }

  lemma {:induction false} DigitsValueOfNat(n: nat)
    ensures DigitsValue(NatToString(n)) == n
  {
    var s := NatToString(n);
    if n < 10 {
      DigitCharValue(n);
      assert s[..0] == [];
    } else {
      DigitsValueOfNat(n / 10);
      DigitCharValue(n % 10);
      assert s[..|s| - 1] == NatToString(n / 10);
    }
  }

  lemma {:induction false} DigitRunOfDigits(ds: string, rest: string)
    requires forall i :: 0 <= i < |ds| ==> IsDigit(ds[i])
    requires rest == [] || !IsDigit(rest[0])
    ensures DigitRun(ds + rest) == |ds|
  {
    if ds != [] {
      assert (ds + rest)[1..] == ds[1..] + rest;
      DigitRunOfDigits(ds[1..], rest);
    } else {
      assert ds + rest == rest;
    }
  }

  lemma IntegerDigitsOf(t: string, ds: string, rest: string)
    requires t == ds + rest && ds != []
    requires forall i :: 0 <= i < |ds| ==> IsDigit(ds[i])
    requires ds[0] == '0' ==> ds == "0"
    requires rest == [] || !IsDigit(rest[0])
    ensures IntegerDigits(t) == |ds|
  {
    assert t[0] == ds[0];
    if ds[0] != '0' {
      assert t[1..] == ds[1..] + rest;
      DigitRunOfDigits(ds[1..], rest);
    }
  }

  lemma DelimitedNotFloat(rest: string)
    requires Delimited(rest)
    ensures !FloatFollows(rest) && (rest == [] || !IsDigit(rest[0]))
  {
  }

  /** The reader takes exactly the digits `ds` when a delimiter follows them. */
  lemma UnsignedText(t: string, ds: string, rest: string)
    requires t == ds + rest && ds != []
    requires forall i :: 0 <= i < |ds| ==> IsDigit(ds[i])
    requires ds[0] == '0' ==> ds == "0"
    requires Delimited(rest)
    ensures ParseUnsigned(t) == Ok(Parsed(DigitsValue(ds), rest))
  {
    DelimitedNotFloat(rest);
    IntegerDigitsOf(t, ds, rest);
    assert t[0] == ds[0];
    assert t[..|ds|] == ds;
    assert t[|ds|..] == rest;
  }

  lemma UnsignedRoundTrip(m: nat, rest: string)
    requires Delimited(rest)
    ensures ParseUnsigned(NatToString(m) + rest) == Ok(Parsed(m, rest))
  {
    UnsignedText(NatToString(m) + rest, NatToString(m), rest);
    DigitsValueOfNat(m);
  }

  lemma NumberNeg(s: string, t: string, i: int, rest: string)
    requires i < 0 && s == "-" + t && ParseUnsigned(t) == Ok(Parsed((-i) as nat, rest))
    ensures ParseNumber(s) == Ok(Parsed(Int(i), rest)) && NumberHead(s)
  {
    assert s[1..] == t;
  }

  lemma NumberPos(t: string, m: nat, rest: string)
    requires ParseUnsigned(t) == Ok(Parsed(m, rest))
    ensures ParseNumber(t) == Ok(Parsed(Int(m), rest)) && NumberHead(t)
  {
  }

  lemma NumberRoundTrip(i: int, rest: string)
    requires Delimited(rest)
    ensures ParseNumber(IntToString(i) + rest) == Ok(Parsed(Int(i), rest))
    ensures NumberHead(IntToString(i) + rest)
  {
    if i < 0 {
      var t := NatToString(-i);
      assert IntToString(i) + rest == "-" + (t + rest) by {
        assert IntToString(i) == "-" + t;
        Associate("-", t, rest, []);
      }
      NegativeRoundTrip(i, t, rest);
    } else {
      UnsignedRoundTrip(i, rest);
      NumberPos(IntToString(i) + rest, i, rest);
    }
  }

  lemma NegativeRoundTrip(i: int, t: string, rest: string)
    requires i < 0 && t == NatToString(-i) && Delimited(rest)
    ensures ParseNumber("-" + (t + rest)) == Ok(Parsed(Int(i), rest))
    ensures NumberHead("-" + (t + rest))
  {
    UnsignedRoundTrip(-i, rest);
    NumberNeg("-" + (t + rest), t + rest, i, rest);
  }

  /** How the text of an integer starts. */
  predicate NumberHead(s: string)
  {
    (|s| >= 1 && IsDigit(s[0])) || (|s| >= 2 && s[0] == '-' && IsDigit(s[1]))
  }

  lemma DispatchNumber(s: string)
    requires NumberHead(s)
    ensures ParseValue(s) == ParseNumber(s)
  {
    if s[0] == '-' {
      assert !StartsWith(s, "-Infinity") by {
        if |s| >= 9 {
          assert s[..9][1] == s[1];
        }
      }
    }
  }

  /** Which reader `ParseValue` hands a text to, by its first character. */
  lemma ParseValueDispatch(s: string)
    requires s != []
    ensures s[0] == '"' ==> ParseValue(s) == match ParseStringBody(s[1..])
                                            case Err(e) => Err(e)
                                            case Ok(Parsed(str, rest)) => Ok(Parsed(Str(str), rest))
    ensures s[0] == '[' ==> ParseValue(s) == ParseArray(s[1..])
    ensures s[0] == '{' ==> ParseValue(s) == ParseObject(s[1..])
    ensures ((s[0] == '-' && !StartsWith(s, "-Infinity")) || IsDigit(s[0])) ==> ParseValue(s) == ParseNumber(s)
    ensures s[0] == 'n' ==> ParseValue(s) == ParseLiteral(s, "null", Null)
    ensures s[0] == 't' ==> ParseValue(s) == ParseLiteral(s, "true", Bool(true))
    ensures s[0] == 'f' ==> ParseValue(s) == ParseLiteral(s, "false", Bool(false))
  {
  }

  lemma IntRoundTrip(i: int, rest: string)
    requires Delimited(rest)
    ensures ParseValue(IntToString(i) + rest) == Ok(Parsed(Int(i), rest))
  {
    NumberRoundTrip(i, rest);
    DispatchNumber(IntToString(i) + rest);
  }

  lemma HexDigitValue(d: nat)
    requires d < 16
    ensures HexValue(HexDigits[d]) == d
  {
  }

  lemma Hex4RoundTrip(n: nat)
    requires n < 0x10000
    ensures IsHex4(Hex4(n)) && Hex4Value(Hex4(n)) == n
  {
    var q1 := n / 16;
    var q2 := q1 / 16;
    var q3 := q2 / 16;
    HexDigitValue(q3);
    HexDigitValue(q2 % 16);
    HexDigitValue(q1 % 16);
    HexDigitValue(n % 16);
  }

  /** Prepends a character to what a string parser read. */
  function Prepend(c: char, r: Result<Parsed<string>, DecodeError>): Result<Parsed<string>, DecodeError>
  {
    match r
    case Err(e) => Err(e)
    case Ok(Parsed(s, w)) => Ok(Parsed([c] + s, w))
  }

  /** How the string reader steps over a backslash escape. */
  lemma StringBodyAtEscape(t: string, c: char, u: string)
    requires t != [] && t[0] == '\\' && ParseEscape(t[1..]) == Ok(Parsed(c, u))
    ensures ParseStringBody(t) == Prepend(c, ParseStringBody(u))
  {
  }

  /** A character written as a two-character escape reads back as itself. */
  lemma ShortEscapeRoundTrip(c: char, tail: string)
    requires c == '"' || c == '\\' || c == '\n' || c == '\r' || c == '\t' || c as int == 0x08 || c as int == 0x0C
    ensures ParseStringBody(EscapeChar(c) + tail) == Prepend(c, ParseStringBody(tail))
  {
    var e := EscapeChar(c);
    assert |e| == 2 && e[0] == '\\';
    var t := e + tail;
    assert t[1..] == [e[1]] + tail;
    assert t[1..][1..] == tail;
    StringBodyAtEscape(t, c, tail);
  }

  /** A printable ASCII character is written as itself and reads back as itself. */
  lemma PlainRoundTrip(c: char, tail: string)
    requires c != '"' && c != '\\' && 0x20 <= c as int <= 0x7E
    ensures ParseStringBody(EscapeChar(c) + tail) == Prepend(c, ParseStringBody(tail))
  {
    assert EscapeChar(c) == [c];
    assert ([c] + tail)[1..] == tail;
  }

  /** `\uXXXX` for a code point of the basic plane outside the surrogates. */
  lemma UnicodeEscapeText(u: string, h: string, n: nat, tail: string)
    requires u == "u" + h + tail && |h| == 4 && IsHex4(h) && Hex4Value(h) == n
    requires n < 0x10000 && !(0xD800 <= n <= 0xDFFF)
    ensures ParseEscape(u) == Ok(Parsed(n as char, tail))
  {
    assert u[1..5] == h;
    assert u[1..][..4] == h;
    assert u[5..] == tail;
  }

  lemma UnicodeEscapeRoundTrip(n: nat, tail: string)
    requires n < 0x10000 && !(0xD800 <= n <= 0xDFFF)
    ensures ParseEscape("u" + Hex4(n) + tail) == Ok(Parsed(n as char, tail))
  {
    Hex4RoundTrip(n);
    UnicodeEscapeText("u" + Hex4(n) + tail, Hex4(n), n, tail);
  }

  /** Any other character of the basic plane is written as \uXXXX and reads back as itself. */
  lemma BmpEscapeRoundTrip(c: char, tail: string)
    requires !(0x20 <= c as int <= 0x7E) && c as int < 0x10000
    requires c != '\n' && c != '\r' && c != '\t' && c as int != 0x08 && c as int != 0x0C
    ensures ParseStringBody(EscapeChar(c) + tail) == Prepend(c, ParseStringBody(tail))
  {
    var n := c as int;
    var h := Hex4(n);
    assert EscapeChar(c) == "\\u" + h;
    var t := "\\u" + h + tail;
    assert t[1..] == "u" + h + tail;
    UnicodeEscapeRoundTrip(n, tail);
    StringBodyAtEscape(t, c, tail);
  }

  /** `\uHHHH\uLLLL` for a surrogate pair. */
  lemma SurrogatePairText(u: string, h1: string, h2: string, hi: nat, lo: nat, tail: string)
    requires u == "u" + h1 + "\\u" + h2 + tail && tail != []
    requires |h1| == 4 && IsHex4(h1) && Hex4Value(h1) == hi
    requires |h2| == 4 && IsHex4(h2) && Hex4Value(h2) == lo
    requires 0xD800 <= hi <= 0xDBFF && 0xDC00 <= lo <= 0xDFFF
    ensures ParseEscape(u) == Ok(Parsed((0x10000 + (hi - 0xD800) * 0x400 + (lo - 0xDC00)) as char, tail))
  {
    var w := "\\u" + h2 + tail;
    assert u[1..5] == h1;
    assert u[1..][..4] == h1;
    assert u[5..] == w;
    assert w[2..6] == h2;
    assert w[2..][..4] == h2;
    assert w[6..] == tail;
  }

  lemma SurrogatePairRoundTrip(hi: nat, lo: nat, tail: string)
    requires 0xD800 <= hi <= 0xDBFF && 0xDC00 <= lo <= 0xDFFF && tail != []
    ensures ParseEscape("u" + Hex4(hi) + "\\u" + Hex4(lo) + tail)
         == Ok(Parsed((0x10000 + (hi - 0xD800) * 0x400 + (lo - 0xDC00)) as char, tail))
  {
    Hex4RoundTrip(hi);
    Hex4RoundTrip(lo);
    SurrogatePairText("u" + Hex4(hi) + "\\u" + Hex4(lo) + tail, Hex4(hi), Hex4(lo), hi, lo, tail);
  }

  /** Joining the surrogates of a code point gives the code point back. */
  lemma JoinSurrogates(n: int)
    requires 0x10000 <= n < 0x110000
    ensures 0x10000 + (HighSurrogate(n) - 0xD800) * 0x400 + (LowSurrogate(n) - 0xDC00) == n
  {
  }

  lemma EscapeCharPair(c: char)
    requires c as int >= 0x10000
    ensures EscapeChar(c) == "\\u" + Hex4(HighSurrogate(c as int)) + "\\u" + Hex4(LowSurrogate(c as int))
  {
  }

  /** A character above U+FFFF is written as a surrogate pair and reads back as itself. */
  lemma PairEscapeRoundTrip(c: char, tail: string)
    requires c as int >= 0x10000 && tail != []
    ensures ParseStringBody(EscapeChar(c) + tail) == Prepend(c, ParseStringBody(tail))
  {
    var n := c as int;
    var hi, lo := HighSurrogate(n), LowSurrogate(n);
    var u := "u" + Hex4(hi) + "\\u" + Hex4(lo) + tail;
    EscapeCharPair(c);
    assert EscapeChar(c) + tail == "\\" + u;
    SurrogatePairRoundTrip(hi, lo, tail);
    JoinSurrogates(n);
    EscapeAt(EscapeChar(c) + tail, u, c, tail);
  }

  /** How the string reader steps over a backslash escape, given the text after the backslash. */
  lemma EscapeAt(t: string, u: string, c: char, tail: string)
    requires t == "\\" + u && ParseEscape(u) == Ok(Parsed(c, tail))
    ensures ParseStringBody(t) == Prepend(c, ParseStringBody(tail))
  {
    assert t[1..] == u;
    StringBodyAtEscape(t, c, tail);
  }

  /** Reading the escape of one character gives that character back. */
  lemma EscapeCharRoundTrip(c: char, tail: string)
    requires tail != []
    ensures ParseStringBody(EscapeChar(c) + tail) == Prepend(c, ParseStringBody(tail))
  {
    var n := c as int;
    if c == '"' || c == '\\' || c == '\n' || c == '\r' || c == '\t' || n == 0x08 || n == 0x0C {
      ShortEscapeRoundTrip(c, tail);
    } else if 0x20 <= n <= 0x7E {
      PlainRoundTrip(c, tail);
    } else if n < 0x10000 {
      BmpEscapeRoundTrip(c, tail);
    } else {
      PairEscapeRoundTrip(c, tail);
    }
  }

  lemma {:induction false} StringBodyRoundTrip(s: string, rest: string)
    ensures ParseStringBody(Escape(s) + "\"" + rest) == Ok(Parsed(s, rest))
  {
    if s == [] {
      assert Escape(s) + "\"" + rest == "\"" + rest;
      assert ("\"" + rest)[1..] == rest;
    } else {
      var tail := Escape(s[1..]) + "\"" + rest;
      assert Escape(s) + "\"" + rest == EscapeChar(s[0]) + tail;
      EscapeCharRoundTrip(s[0], tail);
      StringBodyRoundTrip(s[1..], rest);
      assert [s[0]] + s[1..] == s;
    }
  }

  /** What `json.dumps` writes is never empty and never starts with whitespace. */
  lemma DumpsHead(v: Value)
    ensures |Dumps(v)| > 0 && !IsWhitespace(Dumps(v)[0]) && Dumps(v)[0] != ']'
  {
    match v
    case Int(i) =>
      if i < 0 { assert Dumps(v)[0] == '-'; } else { assert IsDigit(Dumps(v)[0]); }
    case _ =>
  }

  lemma SkipWsAtValue(v: Value, rest: string)
    ensures SkipWs(Dumps(v) + rest) == Dumps(v) + rest
  {
    DumpsHead(v);
    assert (Dumps(v) + rest)[0] == Dumps(v)[0];
  }

  /** The array reader stops after an item followed by ']'. */
  lemma ItemsLast(u: string, v: Value, rest: string)
    requires ParseValue(u) == Ok(Parsed(v, "]" + rest))
    ensures ParseItems(u) == Ok(Parsed([v], rest))
  {
    assert ("]" + rest)[1..] == rest;
  }

  /** The array reader goes on after an item followed by ", ". */
  lemma ItemsMore(u: string, v: Value, next: string, vs: seq<Value>, rest: string)
    requires ParseValue(u) == Ok(Parsed(v, ", " + next))
    requires SkipWs(next) == next
    requires ParseItems(next) == Ok(Parsed(vs, rest))
    ensures ParseItems(u) == Ok(Parsed([v] + vs, rest))
  {
    assert (", " + next)[1..] == " " + next;
    assert (" " + next)[1..] == next;
  }

  /** The text of a member: its quoted key, ": ", the text `d` of its value, then `after`. */
  predicate MemberText(u: string, key: string, d: string, after: string)
  {
    u == "\"" + (Escape(key) + "\"" + (": " + (d + after)))
  }

  /** Reading the key and the value of a member written as `MemberText` describes. */
  lemma MemberParts(u: string, key: string, d: string, v: Value, after: string)
    requires MemberText(u, key, d, after)
    requires ParseValue(d + after) == Ok(Parsed(v, after))
    requires SkipWs(d + after) == d + after
    ensures u != [] && u[0] == '"' && ParseStringBody(u[1..]) == Ok(Parsed(key, ": " + (d + after)))
    ensures SkipWs(": " + (d + after)) == ": " + (d + after)
    ensures ParseValue(SkipWs((": " + (d + after))[1..])) == Ok(Parsed(v, after))
  {
    var c := ": " + (d + after);
    assert u[1..] == Escape(key) + "\"" + c;
    StringBodyRoundTrip(key, c);
    assert c[1..] == " " + (d + after);
    assert (" " + (d + after))[1..] == d + after;
  }

  /** The object reader stops after a member followed by '}'. */
  lemma MembersLast(u: string, key: string, d: string, v: Value, rest: string)
    requires MemberText(u, key, d, "}" + rest)
    requires ParseValue(d + ("}" + rest)) == Ok(Parsed(v, "}" + rest))
    requires SkipWs(d + ("}" + rest)) == d + ("}" + rest)
    ensures ParseMembers(u) == Ok(Parsed([Member(key, v)], rest))
  {
    MemberParts(u, key, d, v, "}" + rest);
    assert ("}" + rest)[1..] == rest;
  }

  /** The object reader goes on after a member followed by ", ". */
  lemma MembersMore(u: string, key: string, d: string, v: Value, next: string, ms: seq<Member>, rest: string)
    requires MemberText(u, key, d, ", " + next)
    requires ParseValue(d + (", " + next)) == Ok(Parsed(v, ", " + next))
    requires SkipWs(d + (", " + next)) == d + (", " + next)
    requires next != [] && next[0] == '"'
    requires ParseMembers(next) == Ok(Parsed(ms, rest))
    ensures ParseMembers(u) == Ok(Parsed([Member(key, v)] + ms, rest))
  {
    MemberParts(u, key, d, v, ", " + next);
    assert SkipWs(", " + next) == ", " + next;
    assert (", " + next)[1..] == " " + next;
    assert (" " + next)[1..] == next;
    assert SkipWs(" " + next) == next;
  }

  /** Reading back what `json.dumps` wrote, followed by a delimiter, gives the value back. */
  lemma {:induction false} ValueRoundTrip(v: Value, rest: string)
    requires WellFormed(v) && Delimited(rest)
    ensures ParseValue(Dumps(v) + rest) == Ok(Parsed(v, rest))
    decreases v, 1
  {
    match v
    case Null => LiteralRoundTrip(v, rest);
    case Bool(_) => LiteralRoundTrip(v, rest);
    case Int(i) => IntRoundTrip(i, rest);
    case Str(str) => StrRoundTrip(str, rest);
    case Arr(items) => ArrRoundTrip(items, rest);
    case Obj(ms) => ObjRoundTrip(ms, rest);
  }

  lemma LiteralRoundTrip(v: Value, rest: string)
    requires v.Null? || v.Bool?
    ensures ParseValue(Dumps(v) + rest) == Ok(Parsed(v, rest))
  {
    var s := Dumps(v) + rest;
    DumpsHead(v);
    assert s[0] == Dumps(v)[0];
    ParseValueDispatch(s);
    if v.Null? || v.b {
      assert s[..4] == Dumps(v) && s[4..] == rest;
    } else {
      assert s[..5] == "false" && s[5..] == rest;
    }
  }

  lemma StringText(s: string, t: string, str: string, rest: string)
    requires s == "\"" + t && ParseStringBody(t) == Ok(Parsed(str, rest))
    ensures ParseValue(s) == Ok(Parsed(Str(str), rest))
  {
    assert s[1..] == t;
  }

  lemma StrRoundTrip(str: string, rest: string)
    ensures ParseValue(Dumps(Str(str)) + rest) == Ok(Parsed(Str(str), rest))
  {
    var t := Escape(str) + "\"" + rest;
    assert Dumps(Str(str)) + rest == "\"" + t;
    StringBodyRoundTrip(str, rest);
    StringText(Dumps(Str(str)) + rest, t, str, rest);
  }

  lemma DispatchArray(s: string)
    requires s != [] && s[0] == '['
    ensures ParseValue(s) == ParseArray(s[1..])
  {
  }

  lemma DispatchObject(s: string)
    requires s != [] && s[0] == '{'
    ensures ParseValue(s) == ParseObject(s[1..])
  {
  }

  lemma ArrayEmpty(rest: string)
    ensures ParseValue(Dumps(Arr([])) + rest) == Ok(Parsed(Arr([]), rest))
  {
    var s := Dumps(Arr([])) + rest;
    assert s == "[]" + rest;
    assert s[1..] == "]" + rest;
    DispatchArray(s);
    assert ("]" + rest)[1..] == rest;
  }

  lemma ArrayItems(s: string, t: string, items: seq<Value>, rest: string)
    requires s == "[" + t
    requires SkipWs(t) == t && t != [] && t[0] != ']'
    requires ParseItems(t) == Ok(Parsed(items, rest))
    ensures ParseValue(s) == Ok(Parsed(Arr(items), rest))
  {
    assert s[1..] == t;
    DispatchArray(s);
  }

  lemma ObjectEmpty(rest: string)
    ensures ParseValue(Dumps(Obj([])) + rest) == Ok(Parsed(Obj([]), rest))
  {
    var s := Dumps(Obj([])) + rest;
    assert s == "{}" + rest;
    assert s[1..] == "}" + rest;
    DispatchObject(s);
    assert ("}" + rest)[1..] == rest;
  }

  lemma ObjectMembers(s: string, t: string, ms: seq<Member>, rest: string)
    requires s == "{" + t
    requires t != [] && t[0] == '"'
    requires ParseMembers(t) == Ok(Parsed(ms, rest))
    requires UniqueKeys(ms)
    ensures ParseValue(s) == Ok(Parsed(Obj(ms), rest))
  {
    assert s[1..] == t;
    DispatchObject(s);
    FromUniquePairs(ms);
  }

  lemma {:induction false} ArrRoundTrip(items: seq<Value>, rest: string)
    requires WellFormed(Arr(items)) && Delimited(rest)
    ensures ParseValue(Dumps(Arr(items)) + rest) == Ok(Parsed(Arr(items), rest))
    decreases items, 3
  {
    if items == [] {
      ArrayEmpty(rest);
    } else {
      var body := DumpItems(items) + ("]" + rest);
      assert Dumps(Arr(items)) + rest == "[" + body;
      ItemsRoundTrip(items, rest);
      ItemsHead(items, "]" + rest);
      ArrayItems(Dumps(Arr(items)) + rest, body, items, rest);
    }
  }

  lemma {:induction false} ObjRoundTrip(ms: seq<Member>, rest: string)
    requires WellFormed(Obj(ms)) && Delimited(rest)
    ensures ParseValue(Dumps(Obj(ms)) + rest) == Ok(Parsed(Obj(ms), rest))
    decreases ms, 3
  {
    if ms == [] {
      ObjectEmpty(rest);
    } else {
      var body := DumpMembers(ms) + ("}" + rest);
      assert Dumps(Obj(ms)) + rest == "{" + body;
      MembersRoundTrip(ms, rest);
      MembersHead(ms, "}" + rest);
      ObjectMembers(Dumps(Obj(ms)) + rest, body, ms, rest);
    }
  }

  /** A non-empty item list starts with its first item, so no whitespace is skipped before it. */
  lemma ItemsHead(items: seq<Value>, rest: string)
    requires items != []
    ensures SkipWs(DumpItems(items) + rest) == DumpItems(items) + rest
    ensures |DumpItems(items) + rest| > 0 && (DumpItems(items) + rest)[0] != ']'
  {
    DumpsHead(items[0]);
    var d := Dumps(items[0]);
    assert DumpItems(items)[0] == d[0];
    assert (DumpItems(items) + rest)[0] == d[0];
  }

  /** A non-empty member list starts with the quote of its first key. */
  lemma MembersHead(ms: seq<Member>, rest: string)
    requires ms != []
    ensures |DumpMembers(ms) + rest| > 0 && (DumpMembers(ms) + rest)[0] == '"'
  {
    assert DumpMember(ms[0])[0] == '"';
    assert DumpMembers(ms)[0] == '"';
  }

  lemma DumpItemsOne(items: seq<Value>, r: string)
    requires |items| == 1
    ensures DumpItems(items) + r == Dumps(items[0]) + r
  {
  }

  lemma DumpItemsCons(items: seq<Value>, r: string)
    requires |items| >= 2
    ensures DumpItems(items) + r == Dumps(items[0]) + (", " + (DumpItems(items[1..]) + r))
  {
  }

  lemma DumpMemberText(m: Member, after: string)
    ensures MemberText(DumpMember(m) + after, m.key, Dumps(m.value), after)
  {
    assert DumpMember(m) == "\"" + Escape(m.key) + "\"" + ": " + Dumps(m.value);
  }

  lemma DumpMembersOne(ms: seq<Member>, r: string)
    requires |ms| == 1
    ensures MemberText(DumpMembers(ms) + r, ms[0].key, Dumps(ms[0].value), r)
  {
    DumpMemberText(ms[0], r);
  }

  lemma Associate(a: string, b: string, c: string, d: string)
    ensures a + b + c + d == a + (b + (c + d))
  {
  }

  lemma DumpMembersCons(ms: seq<Member>, r: string)
    requires |ms| >= 2
    ensures MemberText(DumpMembers(ms) + r, ms[0].key, Dumps(ms[0].value), ", " + (DumpMembers(ms[1..]) + r))
  {
    var a, b := DumpMember(ms[0]), DumpMembers(ms[1..]);
    assert DumpMembers(ms) == a + ", " + b;
    Associate(a, ", ", b, r);
    DumpMemberText(ms[0], ", " + (b + r));
  }

  lemma {:induction false} ItemsRoundTrip(items: seq<Value>, rest: string)
    requires items != []
    requires forall i :: 0 <= i < |items| ==> WellFormed(items[i])
    ensures ParseItems(DumpItems(items) + ("]" + rest)) == Ok(Parsed(items, rest))
    decreases items, 2
  {
    var u := DumpItems(items) + ("]" + rest);
    var v := items[0];
    if |items| == 1 {
      DumpItemsOne(items, "]" + rest);
      ValueRoundTrip(v, "]" + rest);
      ItemsLast(u, v, rest);
      assert [v] == items;
    } else {
      var tail := items[1..];
      var next := DumpItems(tail) + ("]" + rest);
      DumpItemsCons(items, "]" + rest);
      ValueRoundTrip(v, ", " + next);
      ItemsHead(tail, "]" + rest);
      ItemsRoundTrip(tail, rest);
      ItemsMore(u, v, next, tail, rest);
      assert [v] + tail == items;
    }
  }

  lemma {:induction false} MembersRoundTrip(ms: seq<Member>, rest: string)
    requires ms != []
    requires forall i :: 0 <= i < |ms| ==> WellFormed(ms[i].value)
    ensures ParseMembers(DumpMembers(ms) + ("}" + rest)) == Ok(Parsed(ms, rest))
    decreases ms, 2
  {
    var u := DumpMembers(ms) + ("}" + rest);
    var m := ms[0];
    var d := Dumps(m.value);
    if |ms| == 1 {
      DumpMembersOne(ms, "}" + rest);
      ValueRoundTrip(m.value, "}" + rest);
      SkipWsAtValue(m.value, "}" + rest);
      MembersLast(u, m.key, d, m.value, rest);
      assert [Member(m.key, m.value)] == ms;
    } else {
      var tail := ms[1..];
      var next := DumpMembers(tail) + ("}" + rest);
      DumpMembersCons(ms, "}" + rest);
      ValueRoundTrip(m.value, ", " + next);
      SkipWsAtValue(m.value, ", " + next);
      MembersHead(tail, "}" + rest);
      MembersRoundTrip(tail, rest);
      MembersMore(u, m.key, d, m.value, next, tail, rest);
      assert [Member(m.key, m.value)] + tail == ms;
    }
  }

  /** `json.loads(json.dumps(v)) == v` */
  lemma LoadsDumps(v: Value)
    requires WellFormed(v)
    ensures Loads(Dumps(v)) == Ok(v)
  {
    SkipWsAtValue(v, []);
    ValueRoundTrip(v, []);
    assert Dumps(v) + [] == Dumps(v);
  }
}
