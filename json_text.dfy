/** Optional values, used for attributes that are not set yet and for
    readers that may fail. */
module Optional {
  datatype Option<+T> = None | Some(value: T)
}

/**
  The text `json.dumps` produces with Python's default settings for the
  values this reporter serialises: strings, integers, lists and dicts (which
  keep their insertion order). Default settings mean `ensure_ascii=True`
  (every character outside printable ASCII is written as a `\uXXXX` escape
  with lower-case hex digits, characters above U+FFFF as a surrogate pair)
  and the separators `", "` between items and `": "` after a key.
 */
module JsonText {

  /** A JSON value; an object keeps its members in insertion order. */
  datatype Value =
    | Str(s: string)
    | Int(n: int)
    | Array(items: seq<Value>)
    | Object(members: seq<(string, Value)>)

  /** `sep.join(parts)`. */
  function Join(parts: seq<string>, sep: string): string
    decreases |parts|
  {
    if |parts| == 0 then ""
    else if |parts| == 1 then parts[0]
    else parts[0] + sep + Join(parts[1..], sep)
  }

  /** Joining one more part adds exactly one separator, before it. */
  lemma {:induction false} JoinAppend(parts: seq<string>, p: string, sep: string)
    requires |parts| > 0
    ensures Join(parts + [p], sep) == Join(parts, sep) + sep + p
    decreases |parts|
  {
    if |parts| > 1 {
      assert (parts + [p])[1..] == parts[1..] + [p];
      JoinAppend(parts[1..], p, sep);
    }
  }

  predicate IsPrintableAscii(c: char)
  {
    ' ' <= c <= '~'
  }

  /** The lower-case hex digit of `d`. */
  function HexDigit(d: nat): (c: char)
    requires d < 16
    ensures IsPrintableAscii(c)
  {
    if d < 10 then ('0' as int + d) as char else ('a' as int + d - 10) as char
  }

  /** `'{0:04x}'.format(n)`: four lower-case hex digits, most significant first. */
  function Hex4(n: nat): (r: string)
    requires n < 0x1_0000
    ensures |r| == 4
  {
    var hi, lo := n / 0x100, n % 0x100;
    [HexDigit(hi / 0x10), HexDigit(hi % 0x10), HexDigit(lo / 0x10), HexDigit(lo % 0x10)]
  }

  /** True of the characters `json.dumps` writes as themselves. */
  predicate IsVerbatim(c: char)
  {
    IsPrintableAscii(c) && c != '"' && c != '\\'
  }

  /** The escape `json.dumps` writes for one character of a string. */
  function EscapeChar(c: char): string
  {
    if c == '"' then "\\\""
    else if c == '\\' then "\\\\"
    else if c == '\n' then "\\n"
    else if c == '\r' then "\\r"
    else if c == '\t' then "\\t"
    else if c as int == 0x08 then "\\b"
    else if c as int == 0x0C then "\\f"
    else if IsPrintableAscii(c) then [c]
    else if c as int < 0x1_0000 then "\\u" + Hex4(c as int)
    else
      // a character above U+FFFF becomes a UTF-16 surrogate pair
      var n := c as int - 0x1_0000;
      "\\u" + Hex4(0xD800 + n / 0x400) + "\\u" + Hex4(0xDC00 + n % 0x400)
  }

  /** The escaped body of a string literal. */
  function Escape(s: string): string
  {
    if |s| == 0 then "" else EscapeChar(s[0]) + Escape(s[1..])
  }

  /** `json.dumps(s)` for a string `s`. */
  function Quote(s: string): string
  {
    "\"" + Escape(s) + "\""
  }

  /** With `ensure_ascii`, a quoted string is printable ASCII throughout. */
  lemma {:induction false} QuoteIsAscii(s: string)
    ensures forall i :: 0 <= i < |Quote(s)| ==> IsPrintableAscii(Quote(s)[i])
  {
    EscapeIsAscii(s);
  }

  lemma {:induction false} EscapeIsAscii(s: string)
    ensures forall i :: 0 <= i < |Escape(s)| ==> IsPrintableAscii(Escape(s)[i])
    decreases |s|
  {
    if |s| > 0 {
      EscapeIsAscii(s[1..]);
      var e := EscapeChar(s[0]);
      assert forall i :: 0 <= i < |e| ==> IsPrintableAscii(e[i]);
    }
  }

  /** The decimal digit of `d`. */
  function DigitChar(d: nat): (c: char)
    requires d < 10
    ensures '0' <= c <= '9'
  {
    ('0' as int + d) as char
  }

  /** `repr(n)` for a non-negative integer. */
  function NatToString(n: nat): string
    decreases n
  {
    if n < 10 then [DigitChar(n)] else NatToString(n / 10) + [DigitChar(n % 10)]
  }

  /** `json.dumps(n)` for an integer `n`. */
  function IntToString(n: int): string
  {
    if n < 0 then "-" + NatToString(-n) else NatToString(n)
  }

  /** The text of each element of a list, in order. */
  function ItemTexts(items: seq<Value>): (r: seq<string>)
    ensures |r| == |items|
    decreases items, 0
  {
    seq(|items|, i requires 0 <= i < |items| => Serialize(items[i]))
  }

  /** The `key: value` text of one member of a dict. */
  function MemberText(member: (string, Value)): string
    decreases member, 0
  {
    Quote(member.0) + ": " + Serialize(member.1)
  }

  /** The `key: value` text of each member of a dict, in order. */
  function MemberTexts(members: seq<(string, Value)>): (r: seq<string>)
    ensures |r| == |members|
    decreases members, 0
  {
    seq(|members|, i requires 0 <= i < |members| => MemberText(members[i]))
  }

  /** `json.dumps(v)` with the default settings. */
  function Serialize(v: Value): string
    decreases v, 1
  {
    match v
    case Str(s) => Quote(s)
    case Int(n) => IntToString(n)
    case Array(items) => "[" + Join(ItemTexts(items), ", ") + "]"
    case Object(members) => "{" + Join(MemberTexts(members), ", ") + "}"
  }
}
