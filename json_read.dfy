/**
 * `json.loads` on a string, following CPython's scanner: whitespace is
 * " \t\n\r"; strings are strict (a raw control character is an error);
 * escapes are \" \\ \/ \b \f \n \r \t and \uXXXX with a following low
 * surrogate joined to a high one; numbers follow the JSON grammar, and one
 * with a fraction or an exponent is a float; an object keeps the first
 * position and the last value of a repeated key; anything after the value
 * other than whitespace is an error ("Extra data").
 */
module JsonRead {
  import opened Wrappers
  import opened JsonValue
  import JsonWrite

  /**
   * Malformed: the text is not JSON (JSONDecodeError).
   * Unsupported: the text is JSON but denotes something this model does not
   * represent: a float, NaN, Infinity, or a lone surrogate.
   */
  datatype DecodeError = Malformed | Unsupported

  /** What a parser read, and the text after it. */
  datatype Parsed<T> = Parsed(v: T, rest: string)

  predicate IsWhitespace(c: char) { c == ' ' || c == '\t' || c == '\n' || c == '\r' }

  function SkipWs(s: string): (r: string)
    ensures |r| <= |s|
    ensures r == [] || !IsWhitespace(r[0])
  {
    if s != [] && IsWhitespace(s[0]) then SkipWs(s[1..]) else s
  }

  predicate StartsWith(s: string, p: string)
  {
    |p| <= |s| && s[..|p|] == p
  }

  function HexValue(c: char): (d: int)
    ensures -1 <= d < 16
  {
    if '0' <= c <= '9' then c as int - '0' as int
    else if 'a' <= c <= 'f' then c as int - 'a' as int + 10
    else if 'A' <= c <= 'F' then c as int - 'A' as int + 10
    else -1
  }

  predicate IsHex4(s: string)
  {
    |s| >= 4 && HexValue(s[0]) >= 0 && HexValue(s[1]) >= 0 && HexValue(s[2]) >= 0 && HexValue(s[3]) >= 0
  }

  function Hex4Value(s: string): (n: nat)
    requires IsHex4(s)
    ensures n < 0x10000
  {
    ((HexValue(s[0]) * 16 + HexValue(s[1])) * 16 + HexValue(s[2])) * 16 + HexValue(s[3])
  }

  /**
   * The character denoted by an escape; `u` is the text after the backslash.
   */
  function ParseEscape(u: string): (r: Result<Parsed<char>, DecodeError>)
    ensures r.Ok? ==> |r.value.rest| < |u|
  {
    if u == [] then Err(Malformed)
    else if u[0] == '"' then Ok(Parsed('"', u[1..]))
    else if u[0] == '\\' then Ok(Parsed('\\', u[1..]))
    else if u[0] == '/' then Ok(Parsed('/', u[1..]))
    else if u[0] == 'b' then Ok(Parsed(0x08 as char, u[1..]))
    else if u[0] == 'f' then Ok(Parsed(0x0C as char, u[1..]))
    else if u[0] == 'n' then Ok(Parsed('\n', u[1..]))
    else if u[0] == 'r' then Ok(Parsed('\r', u[1..]))
    else if u[0] == 't' then Ok(Parsed('\t', u[1..]))
    else if u[0] != 'u' || !IsHex4(u[1..]) then Err(Malformed)
    else
      var c := Hex4Value(u[1..5]);
      var w := u[5..];
      if 0xD800 <= c <= 0xDBFF then
        // CPython looks for a second escape only when more than six characters follow
        if |w| > 6 && w[0] == '\\' && w[1] == 'u' then
          if !IsHex4(w[2..]) then Err(Malformed)
          else
            var c2 := Hex4Value(w[2..6]);
            if 0xDC00 <= c2 <= 0xDFFF then
              Ok(Parsed((0x10000 + (c - 0xD800) * 0x400 + (c2 - 0xDC00)) as char, w[6..]))
            else Err(Unsupported)
        else Err(Unsupported)
      else if 0xDC00 <= c <= 0xDFFF then Err(Unsupported)
      else Ok(Parsed(c as char, w))
  }

  /** The characters of a string up to its closing quote; `t` is the text after the opening quote. */
  function ParseStringBody(t: string): (r: Result<Parsed<string>, DecodeError>)
    ensures r.Ok? ==> |r.value.rest| < |t|
    decreases |t|
  {
    if t == [] then Err(Malformed)
    else if t[0] == '"' then Ok(Parsed([], t[1..]))
    else if t[0] == '\\' then
      match ParseEscape(t[1..])
      case Err(e) => Err(e)
      case Ok(Parsed(c, u)) =>
        match ParseStringBody(u)
        case Err(e) => Err(e)
        case Ok(Parsed(s, w)) => Ok(Parsed([c] + s, w))
    else if (t[0] as int) < 0x20 then Err(Malformed)
    else
      match ParseStringBody(t[1..])
      case Err(e) => Err(e)
      case Ok(Parsed(s, w)) => Ok(Parsed([t[0]] + s, w))
  }

  /** Length of the run of decimal digits at the head of `s`. */
  function DigitRun(s: string): (k: nat)
    ensures k <= |s| && forall i :: 0 <= i < k ==> JsonWrite.IsDigit(s[i])
    ensures k < |s| ==> !JsonWrite.IsDigit(s[k])
  {
    if s != [] && JsonWrite.IsDigit(s[0]) then 1 + DigitRun(s[1..]) else 0
  }

  /** Value of a run of decimal digits. */
  function DigitsValue(ds: string): nat
    requires forall i :: 0 <= i < |ds| ==> JsonWrite.IsDigit(ds[i])
  {
    if ds == [] then 0
    else
      var last := ds[|ds| - 1];
      assert JsonWrite.IsDigit(last);
      DigitsValue(ds[..|ds| - 1]) * 10 + (last as int - '0' as int)
  }

  /** Whether the text after an integer part turns the number into a float. */
  predicate FloatFollows(rest: string)
  {
    || (|rest| >= 2 && rest[0] == '.' && JsonWrite.IsDigit(rest[1]))
    || (|rest| >= 2 && (rest[0] == 'e' || rest[0] == 'E') &&
        var j := if |rest| >= 3 && (rest[1] == '+' || rest[1] == '-') then 2 else 1;
        JsonWrite.IsDigit(rest[j]))
  }

  /** A number; `s` starts with '-' or a digit. */
  function ParseNumber(s: string): (r: Result<Parsed<Value>, DecodeError>)
    requires s != []
    ensures r.Ok? ==> |r.value.rest| < |s|
  {
    var neg := s[0] == '-';
    match ParseUnsigned(if neg then s[1..] else s)
    case Err(e) => Err(e)
    case Ok(Parsed(n, rest)) => Ok(Parsed(Int(if neg then -(n as int) else n), rest))
  }

  /** The digits of a number after its sign, and what follows them. */
  function ParseUnsigned(t: string): (r: Result<Parsed<nat>, DecodeError>)
    ensures r.Ok? ==> |r.value.rest| < |t|
  {
    if t == [] || !JsonWrite.IsDigit(t[0]) then Err(Malformed)
    else
      var k := IntegerDigits(t);
      if FloatFollows(t[k..]) then Err(Unsupported)
      else Ok(Parsed(DigitsValue(t[..k]), t[k..]))
  }

  /** How many digits the integer part takes: one for a leading zero, else the whole run. */
  function IntegerDigits(t: string): (k: nat)
    requires t != [] && JsonWrite.IsDigit(t[0])
    ensures 1 <= k <= |t| && forall i :: 0 <= i < k ==> JsonWrite.IsDigit(t[i])
  {
    if t[0] == '0' then 1 else 1 + DigitRun(t[1..])
  }

  /** One JSON value at the head of `s` (whitespace before it already skipped). */
  function ParseValue(s: string): (r: Result<Parsed<Value>, DecodeError>)
    ensures r.Ok? ==> |r.value.rest| < |s|
    decreases |s|, 0
  {
    if s == [] then Err(Malformed)
    else
      var c := s[0];
      if c == '"' then
        match ParseStringBody(s[1..])
        case Err(e) => Err(e)
        case Ok(Parsed(str, rest)) => Ok(Parsed(Str(str), rest))
      else if c == '[' then ParseArray(s[1..])
      else if c == '{' then ParseObject(s[1..])
      else if c == 'n' then ParseLiteral(s, "null", Null)
      else if c == 't' then ParseLiteral(s, "true", Bool(true))
      else if c == 'f' then ParseLiteral(s, "false", Bool(false))
      else if c == 'N' then (if StartsWith(s, "NaN") then Err(Unsupported) else Err(Malformed))
      else if c == 'I' then (if StartsWith(s, "Infinity") then Err(Unsupported) else Err(Malformed))
      else if c == '-' && StartsWith(s, "-Infinity") then Err(Unsupported)
      else if c == '-' || JsonWrite.IsDigit(c) then ParseNumber(s)
      else Err(Malformed)
  }

  /** The keyword `word` at the head of `s`, standing for `v`. */
  function ParseLiteral(s: string, word: string, v: Value): (r: Result<Parsed<Value>, DecodeError>)
    requires word != []
    ensures r.Ok? ==> |r.value.rest| < |s|
  {
    if StartsWith(s, word) then Ok(Parsed(v, s[|word|..])) else Err(Malformed)
  }

  /** An array; `t` is the text after '['. */
  function ParseArray(t: string): (r: Result<Parsed<Value>, DecodeError>)
    ensures r.Ok? ==> |r.value.rest| < |t|
    decreases |t|, 2
  {
    var u := SkipWs(t);
    if u != [] && u[0] == ']' then Ok(Parsed(Arr([]), u[1..]))
    else
      match ParseItems(u)
      case Err(e) => Err(e)
      case Ok(Parsed(items, rest)) => Ok(Parsed(Arr(items), rest))
  }

  /** The items of a non-empty array and its closing ']'. */
  function ParseItems(u: string): (r: Result<Parsed<seq<Value>>, DecodeError>)
    ensures r.Ok? ==> |r.value.rest| < |u|
    decreases |u|, 1
  {
    var first := ParseValue(u);
    if first.Err? then Err(first.error)
    else
      var w := SkipWs(first.value.rest);
      if w != [] && w[0] == ']' then Ok(Parsed([first.value.v], w[1..]))
      else if w != [] && w[0] == ',' then
        var more := ParseItems(SkipWs(w[1..]));
        if more.Err? then more
        else Ok(Parsed([first.value.v] + more.value.v, more.value.rest))
      else Err(Malformed)
  }

  /** An object; `t` is the text after '{'. */
  function ParseObject(t: string): (r: Result<Parsed<Value>, DecodeError>)
    ensures r.Ok? ==> |r.value.rest| < |t|
    decreases |t|, 2
  {
    var u := SkipWs(t);
    if u != [] && u[0] == '}' then Ok(Parsed(Obj([]), u[1..]))
    else
      match ParseMembers(u)
      case Err(e) => Err(e)
      case Ok(Parsed(pairs, rest)) => Ok(Parsed(Obj(FromPairs(pairs)), rest))
  }

  /** The key/value pairs of a non-empty object, in document order, and its closing '}'. */
  function ParseMembers(u: string): (r: Result<Parsed<seq<Member>>, DecodeError>)
    ensures r.Ok? ==> |r.value.rest| < |u|
    decreases |u|, 1
  {
    if u == [] || u[0] != '"' then Err(Malformed)
    else
      var key := ParseStringBody(u[1..]);
      if key.Err? then Err(key.error)
      else
        var c := SkipWs(key.value.rest);
        if c == [] || c[0] != ':' then Err(Malformed)
        else
          var first := ParseValue(SkipWs(c[1..]));
          if first.Err? then Err(first.error)
          else
            var m := Member(key.value.v, first.value.v);
            var w := SkipWs(first.value.rest);
            if w != [] && w[0] == '}' then Ok(Parsed([m], w[1..]))
            else if w != [] && w[0] == ',' then
              var more := ParseMembers(SkipWs(w[1..]));
              if more.Err? then more
              else Ok(Parsed([m] + more.value.v, more.value.rest))
            else Err(Malformed)
  }

  /** Every object the reader builds is a dict: its keys are unique, at every depth. */
  lemma {:induction false} ParseValueWellFormed(s: string)
    ensures ParseValue(s).Ok? ==> WellFormed(ParseValue(s).value.v)
    decreases |s|, 0
  {
    if s != [] && s[0] == '[' {
      ParseArrayWellFormed(s[1..]);
    } else if s != [] && s[0] == '{' {
      ParseObjectWellFormed(s[1..]);
    }
  }

  lemma {:induction false} ParseArrayWellFormed(t: string)
    ensures ParseArray(t).Ok? ==> WellFormed(ParseArray(t).value.v)
    decreases |t|, 2
  {
    var u := SkipWs(t);
    if !(u != [] && u[0] == ']') {
      ParseItemsWellFormed(u);
    }
  }

  lemma {:induction false} ParseItemsWellFormed(u: string)
    ensures ParseItems(u).Ok? ==> forall i :: 0 <= i < |ParseItems(u).value.v| ==> WellFormed(ParseItems(u).value.v[i])
    decreases |u|, 1
  {
    ParseValueWellFormed(u);
    var first := ParseValue(u);
    if first.Ok? {
      var w := SkipWs(first.value.rest);
      if w != [] && w[0] == ',' {
        var more := ParseItems(SkipWs(w[1..]));
        ParseItemsWellFormed(SkipWs(w[1..]));
        if more.Ok? {
          var items := [first.value.v] + more.value.v;
          forall i | 0 < i < |items| ensures WellFormed(items[i]) {
            assert items[i] == more.value.v[i - 1];
          }
        }
      }
    }
  }

  lemma {:induction false} ParseObjectWellFormed(t: string)
    ensures ParseObject(t).Ok? ==> WellFormed(ParseObject(t).value.v)
    decreases |t|, 2
  {
    var u := SkipWs(t);
    if !(u != [] && u[0] == '}') {
      ParseMembersWellFormed(u);
      if ParseMembers(u).Ok? {
        FromPairsWellFormed(ParseMembers(u).value.v);
      }
    }
  }

  lemma ConsWellFormed(m: Member, ms: seq<Member>)
    requires WellFormed(m.value) && forall i :: 0 <= i < |ms| ==> WellFormed(ms[i].value)
    ensures forall i :: 0 <= i < |[m] + ms| ==> WellFormed(([m] + ms)[i].value)
  {
    forall i | 0 < i < |[m] + ms| ensures WellFormed(([m] + ms)[i].value) {
      assert ([m] + ms)[i] == ms[i - 1];
    }
  }

  lemma {:induction false} ParseMembersWellFormed(u: string)
    ensures ParseMembers(u).Ok? ==> forall i :: 0 <= i < |ParseMembers(u).value.v| ==> WellFormed(ParseMembers(u).value.v[i].value)
    decreases |u|, 1
  {
    if u != [] && u[0] == '"' {
      var key := ParseStringBody(u[1..]);
      if key.Ok? {
        var c := SkipWs(key.value.rest);
        if c != [] && c[0] == ':' {
          ParseValueWellFormed(SkipWs(c[1..]));
          var first := ParseValue(SkipWs(c[1..]));
          if first.Ok? {
            var m := Member(key.value.v, first.value.v);
            var w := SkipWs(first.value.rest);
            if w != [] && w[0] == ',' {
              var more := ParseMembers(SkipWs(w[1..]));
              ParseMembersWellFormed(SkipWs(w[1..]));
              if more.Ok? {
                assert ParseMembers(u) == Ok(Parsed([m] + more.value.v, more.value.rest));
                ConsWellFormed(m, more.value.v);
              }
            }
          }
        }
      }
    }
  }

  /** `json.loads(s)`: whatever it returns holds dicts only, each key once. */
  function Loads(s: string): (r: Result<Value, DecodeError>)
    ensures r.Ok? ==> WellFormed(r.value)
  {
    ParseValueWellFormed(SkipWs(s));
    match ParseValue(SkipWs(s))
    case Err(e) => Err(e)
    case Ok(Parsed(v, rest)) => if SkipWs(rest) == [] then Ok(v) else Err(Malformed)
  }
}
