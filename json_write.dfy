/**
 * `json.dumps` with its default options: `ensure_ascii=True` (every character
 * outside printable ASCII is written as a `\uXXXX` escape, characters above
 * U+FFFF as a surrogate pair), separators ", " and ": ", no indentation.
 */
module JsonWrite {
  import opened JsonValue

  const HexDigits: string := "0123456789abcdef"

  predicate IsDigit(c: char) { '0' <= c <= '9' }

  function DigitChar(d: nat): (c: char)
    requires d < 10
    ensures IsDigit(c)
  {
    "0123456789"[d]
  }

  /** Decimal digits of `n`, most significant first, no leading zero. */
  function NatToString(n: nat): (s: string)
    ensures |s| >= 1 && (forall i :: 0 <= i < |s| ==> IsDigit(s[i]))
    ensures s[0] == '0' ==> n == 0 && s == "0"
  {
    if n < 10 then [DigitChar(n)] else NatToString(n / 10) + [DigitChar(n % 10)]
  }

  /** `repr` of a Python int. */
  function IntToString(i: int): string
  {
    if i < 0 then "-" + NatToString(-i) else NatToString(i)
  }

  /** Four lower-case hex digits of a 16-bit value. */
  function Hex4(n: nat): (s: string)
    requires n < 0x10000
    ensures |s| == 4
  {
    var q1 := n / 16;
    var q2 := q1 / 16;
    var q3 := q2 / 16;
    [HexDigits[q3], HexDigits[q2 % 16], HexDigits[q1 % 16], HexDigits[n % 16]]
  }

  /** How one character of a string is written inside the quotes. */
  function EscapeChar(c: char): (s: string)
    ensures 1 <= |s| <= 12
  {
    var n := c as int;
    if c == '"' then "\\\""
    else if c == '\\' then "\\\\"
    else if c == '\n' then "\\n"
    else if c == '\r' then "\\r"
    else if c == '\t' then "\\t"
    else if n == 0x08 then "\\b"
    else if n == 0x0C then "\\f"
    else if 0x20 <= n <= 0x7E then [c]
    else if n < 0x10000 then "\\u" + Hex4(n)
    else "\\u" + Hex4(HighSurrogate(n)) + "\\u" + Hex4(LowSurrogate(n))
  }

  /** The UTF-16 surrogate pair of a code point above U+FFFF. */
  function HighSurrogate(n: int): (h: nat)
    requires 0x10000 <= n < 0x110000
    ensures 0xD800 <= h <= 0xDBFF
  {
    0xD800 + (n - 0x10000) / 0x400
  }

  function LowSurrogate(n: int): (l: nat)
    requires 0x10000 <= n < 0x110000
    ensures 0xDC00 <= l <= 0xDFFF
  {
    0xDC00 + (n - 0x10000) % 0x400
  }

  function Escape(s: string): string
  {
    if s == [] then [] else EscapeChar(s[0]) + Escape(s[1..])
  }

  function Quote(s: string): string
  {
    "\"" + Escape(s) + "\""
  }

  /** `json.dumps(v)`: non-empty, and its first character tells which kind of value it writes. */
  function Dumps(v: Value): (s: string)
    ensures s != []
    ensures s[0] == '{' <==> v.Obj?
    ensures s[0] == '[' <==> v.Arr?
    ensures s[0] == '"' <==> v.Str?
    ensures s[0] == '-' || IsDigit(s[0]) <==> v.Int?
  {
    match v
    case Null => "null"
    case Bool(b) => if b then "true" else "false"
    case Int(i) => IntToString(i)
    case Str(s) => Quote(s)
    case Arr(items) => "[" + DumpItems(items) + "]"
    case Obj(ms) => "{" + DumpMembers(ms) + "}"
  }

  function DumpItems(items: seq<Value>): string
  {
    if items == [] then ""
    else if |items| == 1 then Dumps(items[0])
    else Dumps(items[0]) + ", " + DumpItems(items[1..])
  }

  function DumpMember(m: Member): string
  {
    Quote(m.key) + ": " + Dumps(m.value)
  }

  function DumpMembers(ms: seq<Member>): string
  {
    if ms == [] then ""
    else if |ms| == 1 then DumpMember(ms[0])
    else DumpMember(ms[0]) + ", " + DumpMembers(ms[1..])
  }

  predicate IsPrintableAscii(s: string)
  {
    forall i :: 0 <= i < |s| ==> 0x20 <= s[i] as int <= 0x7E
  }

  lemma AsciiConcat(a: string, b: string)
    requires IsPrintableAscii(a) && IsPrintableAscii(b)
    ensures IsPrintableAscii(a + b)
  {
    forall i | 0 <= i < |a + b| ensures 0x20 <= (a + b)[i] as int <= 0x7E {
      if i >= |a| { assert (a + b)[i] == b[i - |a|]; }
    }
  }

  lemma Hex4IsAscii(n: nat)
    requires n < 0x10000
    ensures IsPrintableAscii(Hex4(n))
  {
    assert IsPrintableAscii(HexDigits);
    var q1 := n / 16;
    var q2 := q1 / 16;
    var q3 := q2 / 16;
    var h := Hex4(n);
    assert h[0] == HexDigits[q3] && h[1] == HexDigits[q2 % 16];
    assert h[2] == HexDigits[q1 % 16] && h[3] == HexDigits[n % 16];
  }

  lemma EscapeCharIsAscii(c: char)
    ensures IsPrintableAscii(EscapeChar(c))
  {
    var n := c as int;
    if c == '"' || c == '\\' || c == '\n' || c == '\r' || c == '\t' || n == 0x08 || n == 0x0C || 0x20 <= n <= 0x7E {
    } else if n < 0x10000 {
      Hex4IsAscii(n);
      AsciiConcat("\\u", Hex4(n));
    } else {
      Hex4IsAscii(HighSurrogate(n));
      Hex4IsAscii(LowSurrogate(n));
      AsciiConcat("\\u", Hex4(HighSurrogate(n)));
      AsciiConcat("\\u" + Hex4(HighSurrogate(n)), "\\u");
      AsciiConcat("\\u" + Hex4(HighSurrogate(n)) + "\\u", Hex4(LowSurrogate(n)));
    }
  }

  lemma {:induction false} EscapeIsAscii(s: string)
    ensures IsPrintableAscii(Escape(s))
  {
    if s != [] {
      EscapeIsAscii(s[1..]);
      EscapeCharIsAscii(s[0]);
      AsciiConcat(EscapeChar(s[0]), Escape(s[1..]));
    }
  }

  /**
   * With `ensure_ascii`, the text `json.dumps` writes is printable ASCII,
   * whatever the strings inside the value.
   */
  lemma {:induction false} DumpsIsAscii(v: Value)
    ensures IsPrintableAscii(Dumps(v))
    decreases v, 1
  {
    match v
    case Null =>
    case Bool(b) =>
    case Int(i) =>
    case Str(s) =>
      EscapeIsAscii(s);
    case Arr(items) =>
      DumpItemsIsAscii(items);
    case Obj(ms) =>
      DumpMembersIsAscii(ms);
  }

  lemma {:induction false} DumpItemsIsAscii(items: seq<Value>)
    ensures IsPrintableAscii(DumpItems(items))
    decreases items, 2
  {
    if |items| == 1 {
      DumpsIsAscii(items[0]);
    } else if items != [] {
      DumpsIsAscii(items[0]);
      DumpItemsIsAscii(items[1..]);
    }
  }

  lemma {:induction false} DumpMembersIsAscii(ms: seq<Member>)
    ensures IsPrintableAscii(DumpMembers(ms))
    decreases ms, 2
  {
    if ms != [] {
      EscapeIsAscii(ms[0].key);
      DumpsIsAscii(ms[0].value);
      if |ms| > 1 {
        DumpMembersIsAscii(ms[1..]);
      }
    }
  }
}
