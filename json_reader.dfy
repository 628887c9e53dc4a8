/**
  A reader for the compact JSON layout that `json.dumps` writes with its
  default separators, following RFC 8259 for string escapes (section 7) and
  integers (section 6). Each reader takes the text at the start of its input
  and returns the value read with the text left over. It is the partner of
  JsonText: reading back what was serialised gives the value again.
 */
module JsonReader {
  import opened Optional
  import opened JsonText

  predicate IsDigit(c: char)
  {
    '0' <= c <= '9'
  }

  /** The value of a hex digit of either case. */
  function HexValue(c: char): Option<nat>
  {
    if '0' <= c <= '9' then Some(c as int - '0' as int)
    else if 'a' <= c <= 'f' then Some(c as int - 'a' as int + 10)
    else if 'A' <= c <= 'F' then Some(c as int - 'A' as int + 10)
    else None
  }

  /** The value of four hex digits. */
  function ReadHex4(h: string): (r: Option<nat>)
    requires |h| == 4
    ensures r.Some? ==> r.value < 0x1_0000
  {
    match (HexValue(h[0]), HexValue(h[1]), HexValue(h[2]), HexValue(h[3]))
    case (Some(a), Some(b), Some(c), Some(d)) =>
      if a < 16 && b < 16 && c < 16 && d < 16
      then Some(((a * 16 + b) * 16 + c) * 16 + d)
      else None
    case _ => None
  }

  predicate IsHighSurrogate(u: int)
  {
    0xD800 <= u < 0xDC00
  }

  predicate IsLowSurrogate(u: int)
  {
    0xDC00 <= u < 0xE000
  }

  /** Reads the escape after a backslash: the character it stands for and
      how many characters of `s` it takes. A lone surrogate has no
      character and is refused. */
  function ReadEscape(s: string): (r: Option<(char, nat)>)
    ensures r.Some? ==> 1 <= r.value.1 <= |s|
  {
    if |s| == 0 then None
    else if s[0] == '"' then Some(('"', 1))
    else if s[0] == '\\' then Some(('\\', 1))
    else if s[0] == '/' then Some(('/', 1))
    else if s[0] == 'b' then Some((0x08 as char, 1))
    else if s[0] == 'f' then Some((0x0C as char, 1))
    else if s[0] == 'n' then Some(('\n', 1))
    else if s[0] == 'r' then Some(('\r', 1))
    else if s[0] == 't' then Some(('\t', 1))
    else if s[0] == 'u' && |s| >= 5 then
      match ReadHex4(s[1..5])
      case None => None
      case Some(u) =>
        if IsLowSurrogate(u) then None
        else if !IsHighSurrogate(u) then Some((u as char, 5))
        else if |s| >= 11 && s[5] == '\\' && s[6] == 'u' then
          match ReadHex4(s[7..11])
          case None => None
          case Some(w) =>
            if IsLowSurrogate(w)
            then Some(((0x1_0000 + (u - 0xD800) * 0x400 + (w - 0xDC00)) as char, 11))
            else None
        else None
    else None
  }

  /** Reads the body of a string literal up to its closing quote. */
  function ReadChars(s: string): (r: Option<(string, string)>)
    ensures r.Some? ==> |r.value.1| < |s|
    decreases |s|
  {
    if |s| == 0 then None
    else if s[0] == '"' then Some(("", s[1..]))
    else if s[0] == '\\' then
      match ReadEscape(s[1..])
      case None => None
      case Some((c, k)) =>
        match ReadChars(s[1 + k..])
        case None => None
        case Some((t, rest)) => Some(([c] + t, rest))
    else if s[0] < ' ' then None
    else
      match ReadChars(s[1..])
      case None => None
      case Some((t, rest)) => Some(([s[0]] + t, rest))
  }

  /** Reads a string literal. */
  function ReadString(s: string): (r: Option<(string, string)>)
    ensures r.Some? ==> |r.value.1| < |s|
  {
    if |s| > 0 && s[0] == '"' then ReadChars(s[1..]) else None
  }

  /** The number of leading decimal digits of `s`. */
  function DigitRun(s: string): (k: nat)
    ensures k <= |s|
    ensures forall i :: 0 <= i < k ==> IsDigit(s[i])
    ensures k < |s| ==> !IsDigit(s[k])
  {
    if |s| > 0 && IsDigit(s[0]) then 1 + DigitRun(s[1..]) else 0
  }

  /** The value of a string of decimal digits, most significant first. */
  function DigitsValue(ds: string): nat
    requires forall i :: 0 <= i < |ds| ==> IsDigit(ds[i])
  {
    if |ds| == 0 then 0
    else
      assert IsDigit(ds[|ds| - 1]);
      DigitsValue(ds[..|ds| - 1]) * 10 + (ds[|ds| - 1] as int - '0' as int)
  }

  /** Reads a non-negative integer: one or more digits, no leading zero. */
  function ReadNat(s: string): (r: Option<(nat, string)>)
    ensures r.Some? ==> |r.value.1| < |s|
  {
    var k := DigitRun(s);
    if k == 0 || (k > 1 && s[0] == '0') then None
    else Some((DigitsValue(s[..k]), s[k..]))
  }

  /** Reads an integer, with an optional minus sign. */
  function ReadInt(s: string): (r: Option<(int, string)>)
    ensures r.Some? ==> |r.value.1| < |s|
  {
    if |s| > 0 && s[0] == '-' then
      match ReadNat(s[1..])
      case None => None
      case Some((n, rest)) => Some((0 - n, rest))
    else
      match ReadNat(s)
      case None => None
      case Some((n, rest)) => Some((n as int, rest))
  }

  /** True when `s` starts with `p`. */
  predicate StartsWith(s: string, p: string)
  {
    |p| <= |s| && s[..|p|] == p
  }

  /** Reads one value. */
  function ReadValue(s: string): (r: Option<(Value, string)>)
    ensures r.Some? ==> |r.value.1| < |s|
    decreases |s|, 0
  {
    if |s| == 0 then None
    else if s[0] == '"' then
      match ReadString(s)
      case None => None
      case Some((t, rest)) => Some((Str(t), rest))
    else if s[0] == '-' || IsDigit(s[0]) then
      match ReadInt(s)
      case None => None
      case Some((n, rest)) => Some((Int(n), rest))
    else if s[0] == '[' then
      if StartsWith(s, "[]") then Some((Array([]), s[2..]))
      else
        match ReadItems(s[1..])
        case None => None
        case Some((items, rest)) => Some((Array(items), rest))
    else if s[0] == '{' then
      if StartsWith(s, "{}") then Some((Object([]), s[2..]))
      else
        match ReadMembers(s[1..])
        case None => None
        case Some((members, rest)) => Some((Object(members), rest))
    else None
  }

  /** Reads `value (", " value)* "]"`: the items of a non-empty list and
      its closing bracket. */
  function ReadItems(s: string): (r: Option<(seq<Value>, string)>)
    ensures r.Some? ==> |r.value.1| < |s|
    decreases |s|, 1
  {
    match ReadValue(s)
    case None => None
    case Some((v, rest)) =>
      if StartsWith(rest, ", ") then
        match ReadItems(rest[2..])
        case None => None
        case Some((vs, rest')) => Some(([v] + vs, rest'))
      else if StartsWith(rest, "]") then Some(([v], rest[1..]))
      else None
  }

  /** Reads `key ": " value (", " key ": " value)* "}"`: the members of a
      non-empty dict and its closing brace. */
  function ReadMembers(s: string): (r: Option<(seq<(string, Value)>, string)>)
    ensures r.Some? ==> |r.value.1| < |s|
    decreases |s|, 1
  {
    match ReadString(s)
    case None => None
    case Some((key, afterKey)) =>
      if !StartsWith(afterKey, ": ") then None
      else
        match ReadValue(afterKey[2..])
        case None => None
        case Some((v, rest)) =>
          if StartsWith(rest, ", ") then
            match ReadMembers(rest[2..])
            case None => None
            case Some((ms, rest')) => Some(([(key, v)] + ms, rest'))
          else if StartsWith(rest, "}") then Some(([(key, v)], rest[1..]))
          else None
  }

  /** Reads a whole document: one value and nothing after it. */
  function ReadDocument(s: string): Option<Value>
  {
    match ReadValue(s)
    case Some((v, rest)) => if rest == "" then Some(v) else None
    case None => None
  }
}
