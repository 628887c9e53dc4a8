/**
  Reading back what `json.dumps` wrote gives the same value: for strings
  (every escape of RFC 8259 section 7 that the serialiser uses, surrogate
  pairs included), for integers, and for lists and dicts of those nested
  to any depth.
 */
module JsonRoundTrip {
  import opened Optional
  import opened JsonText
  import opened JsonReader

  lemma HexDigitRoundTrip(d: nat)
    requires d < 16
    ensures HexValue(HexDigit(d)) == Some(d)
  {
  }

  /** Four hex digits read back as the number they were written for. */
  lemma Hex4RoundTrip(n: nat)
    requires n < 0x1_0000
    ensures ReadHex4(Hex4(n)) == Some(n)
  {
    var hi, lo := n / 0x100, n % 0x100;
    HexDigitRoundTrip(hi / 0x10);
    HexDigitRoundTrip(hi % 0x10);
    HexDigitRoundTrip(lo / 0x10);
    HexDigitRoundTrip(lo % 0x10);
  }

  /** The reader's result with `c` put in front of the string read. */
  function Cons(c: char, r: Option<(string, string)>): Option<(string, string)>
  {
    match r
    case None => None
    case Some((x, rest)) => Some(([c] + x, rest))
  }

  lemma ReadCharsEscapeStep(s: string, c: char, k: nat)
    requires |s| > 0 && s[0] == '\\' && ReadEscape(s[1..]) == Some((c, k))
    ensures ReadChars(s) == Cons(c, ReadChars(s[1 + k..]))
  {
  }

  lemma ReadCharsVerbatimStep(s: string)
    requires |s| > 0 && IsVerbatim(s[0])
    ensures ReadChars(s) == Cons(s[0], ReadChars(s[1..]))
  {
  }

  /** True of the characters written as a backslash and one letter. */
  predicate HasShortEscape(c: char)
  {
    c == '"' || c == '\\' || c == '\n' || c == '\r' || c == '\t' || c as int == 0x08 || c as int == 0x0C
  }

  lemma ShortEscapeRead(c: char, t: string)
    requires HasShortEscape(c)
    ensures |EscapeChar(c)| == 2 && EscapeChar(c)[0] == '\\'
    ensures ReadEscape([EscapeChar(c)[1]] + t) == Some((c, 1))
  {
  }

  lemma UnicodeEscapeRead(c: char, t: string)
    requires c as int < 0x1_0000
    ensures ReadEscape("u" + Hex4(c as int) + t) == Some((c, 5))
  {
    var u := "u" + Hex4(c as int) + t;
    assert u[1..5] == Hex4(c as int);
    Hex4RoundTrip(c as int);
  }

  lemma SurrogatePairRead(c: char, t: string)
    requires c as int >= 0x1_0000
    ensures var n := c as int - 0x1_0000;
      ReadEscape("u" + Hex4(0xD800 + n / 0x400) + "\\u" + Hex4(0xDC00 + n % 0x400) + t) == Some((c, 11))
  {
    var n := c as int - 0x1_0000;
    var hi, lo := 0xD800 + n / 0x400, 0xDC00 + n % 0x400;
    var u := "u" + Hex4(hi) + "\\u" + Hex4(lo) + t;
    assert u[1..5] == Hex4(hi) && u[5] == '\\' && u[6] == 'u' && u[7..11] == Hex4(lo);
    Hex4RoundTrip(hi);
    Hex4RoundTrip(lo);
  }

  /** Reading the escape of one character gives that character, and the
      reader then carries on with what follows the escape. */
  lemma ReadEscapeChar(c: char, t: string)
    ensures ReadChars(EscapeChar(c) + t) == Cons(c, ReadChars(t))
  {
    var e := EscapeChar(c);
    var s := e + t;
    if HasShortEscape(c) {
      ShortEscapeRead(c, t);
      assert s[1..] == [e[1]] + t;
      ReadCharsEscapeStep(s, c, 1);
      assert s[2..] == t;
    } else if IsPrintableAscii(c) {
      assert e == [c];
      ReadCharsVerbatimStep(s);
      assert s[1..] == t;
    } else if c as int < 0x1_0000 {
      assert e == "\\u" + Hex4(c as int);
      assert s[1..] == "u" + Hex4(c as int) + t;
      UnicodeEscapeRead(c, t);
      ReadCharsEscapeStep(s, c, 5);
      assert s[6..] == t;
    } else {
      var n := c as int - 0x1_0000;
      var h1, h2 := Hex4(0xD800 + n / 0x400), Hex4(0xDC00 + n % 0x400);
      assert e == "\\u" + h1 + "\\u" + h2;
      assert s[1..] == "u" + h1 + "\\u" + h2 + t;
      SurrogatePairRead(c, t);
      ReadCharsEscapeStep(s, c, 11);
      assert s[12..] == t;
    }
  }

  /** The escaped body of a string, then its closing quote, reads back as
      the string. */
  lemma {:induction false} ReadEscaped(s: string, rest: string)
    ensures ReadChars(Escape(s) + "\"" + rest) == Some((s, rest))
    decreases |s|
  {
    if |s| == 0 {
      assert Escape(s) + "\"" + rest == "\"" + rest;
    } else {
      var t := Escape(s[1..]) + "\"" + rest;
      assert Escape(s) + "\"" + rest == EscapeChar(s[0]) + t;
      ReadEscaped(s[1..], rest);
      ReadEscapeChar(s[0], t);
      assert [s[0]] + s[1..] == s;
    }
  }

  /** `json.dumps` of a string reads back as that string, whatever follows. */
  lemma {:induction false} ReadQuote(s: string, rest: string)
    ensures ReadString(Quote(s) + rest) == Some((s, rest))
  {
    var q := Quote(s) + rest;
    assert q[0] == '"';
    assert q[1..] == Escape(s) + "\"" + rest;
    ReadEscaped(s, rest);
  }

  /** Decimal text is digits only, with no leading zero, and has the value
      it was written for. */
  lemma {:induction false} NatToStringDigits(n: nat)
    ensures var r := NatToString(n);
      && |r| > 0
      && (forall i :: 0 <= i < |r| ==> IsDigit(r[i]))
      && (|r| > 1 ==> r[0] != '0')
      && DigitsValue(r) == n
    decreases n
  {
    var r := NatToString(n);
    if n >= 10 {
      NatToStringDigits(n / 10);
      var p := NatToString(n / 10);
      assert r == p + [DigitChar(n % 10)];
      assert r[..|r| - 1] == p;
      assert r[0] == p[0];
    }
  }

  lemma {:induction false} DigitRunOf(ds: string, rest: string)
    requires forall i :: 0 <= i < |ds| ==> IsDigit(ds[i])
    requires rest == "" || !IsDigit(rest[0])
    ensures DigitRun(ds + rest) == |ds|
    decreases |ds|
  {
    if |ds| > 0 {
      assert (ds + rest)[1..] == ds[1..] + rest;
      DigitRunOf(ds[1..], rest);
    } else {
      assert ds + rest == rest;
    }
  }

  /** True of the text that may follow a number without extending it. */
  predicate EndsNumber(rest: string)
  {
    rest == "" || !IsDigit(rest[0])
  }

  lemma {:induction false} ReadNatToString(n: nat, rest: string)
    requires EndsNumber(rest)
    ensures ReadNat(NatToString(n) + rest) == Some((n, rest))
  {
    var r := NatToString(n);
    NatToStringDigits(n);
    DigitRunOf(r, rest);
    assert (r + rest)[..|r|] == r;
    assert (r + rest)[|r|..] == rest;
  }

  lemma ReadIntNegativeStep(s: string, m: nat, rest: string)
    requires |s| > 0 && s[0] == '-' && ReadNat(s[1..]) == Some((m, rest))
    ensures ReadInt(s) == Some((0 - m, rest))
  {
  }

  lemma ReadIntNaturalStep(s: string, m: nat, rest: string)
    requires |s| > 0 && s[0] != '-' && ReadNat(s) == Some((m, rest))
    ensures ReadInt(s) == Some((m as int, rest))
  {
  }

  lemma {:induction false} ReadNegativeToString(n: int, rest: string)
    requires n < 0 && EndsNumber(rest)
    ensures ReadInt(IntToString(n) + rest) == Some((n, rest))
  {
    var t := NatToString(-n) + rest;
    var s := "-" + t;
    assert IntToString(n) + rest == s;
    assert s[1..] == t;
    ReadNatToString(-n, rest);
    ReadIntNegativeStep(s, -n, rest);
  }

  lemma {:induction false} ReadNaturalToString(n: nat, rest: string)
    requires EndsNumber(rest)
    ensures ReadInt(IntToString(n) + rest) == Some((n, rest))
  {
    var s := NatToString(n) + rest;
    assert IntToString(n) + rest == s;
    NatToStringDigits(n);
    assert s[0] == NatToString(n)[0];
    ReadNatToString(n, rest);
    ReadIntNaturalStep(s, n, rest);
  }

  /** `json.dumps` of an integer reads back as that integer when what
      follows does not start with a digit. */
  lemma {:induction false} ReadIntToString(n: int, rest: string)
    requires EndsNumber(rest)
    ensures ReadInt(IntToString(n) + rest) == Some((n, rest))
  {
    if n < 0 {
      ReadNegativeToString(n, rest);
    } else {
      ReadNaturalToString(n, rest);
    }
  }

  /** The characters a serialised value can start with. */
  predicate IsValueStart(c: char)
  {
    c == '"' || c == '-' || IsDigit(c) || c == '[' || c == '{'
  }

  lemma {:induction false} SerializeStart(v: Value)
    ensures |Serialize(v)| > 0 && IsValueStart(Serialize(v)[0])
  {
    match v
    case Str(s) =>
    case Int(n) =>
      NatToStringDigits(if n < 0 then -n else n);
    case Array(items) =>
    case Object(members) =>
  }

  lemma JoinStart(parts: seq<string>, sep: string)
    requires |parts| > 0 && |parts[0]| > 0
    ensures |Join(parts, sep)| > 0 && Join(parts, sep)[0] == parts[0][0]
  {
  }

  lemma {:induction false} JoinTail(parts: seq<string>, k: nat, sep: string)
    requires k + 1 < |parts|
    ensures Join(parts[k..], sep) == parts[k] + sep + Join(parts[k + 1..], sep)
  {
    assert parts[k..][1..] == parts[k + 1..];
  }

  lemma ReadValueStrStep(s: string, t: string, rest: string)
    requires |s| > 0 && s[0] == '"' && ReadString(s) == Some((t, rest))
    ensures ReadValue(s) == Some((Str(t), rest))
  {
  }

  lemma ReadValueIntStep(s: string, n: int, rest: string)
    requires |s| > 0 && (s[0] == '-' || IsDigit(s[0])) && ReadInt(s) == Some((n, rest))
    ensures ReadValue(s) == Some((Int(n), rest))
  {
  }

  lemma ReadValueArrayStep(s: string, items: seq<Value>, rest: string)
    requires |s| > 1 && s[0] == '[' && s[1] != ']' && ReadItems(s[1..]) == Some((items, rest))
    ensures ReadValue(s) == Some((Array(items), rest))
  {
  }

  lemma ReadValueObjectStep(s: string, members: seq<(string, Value)>, rest: string)
    requires |s| > 1 && s[0] == '{' && s[1] != '}' && ReadMembers(s[1..]) == Some((members, rest))
    ensures ReadValue(s) == Some((Object(members), rest))
  {
  }

  lemma ReadItemsMoreStep(s: string, v: Value, after: string, vs: seq<Value>, rest: string)
    requires ReadValue(s) == Some((v, after))
    requires StartsWith(after, ", ") && ReadItems(after[2..]) == Some((vs, rest))
    ensures ReadItems(s) == Some(([v] + vs, rest))
  {
  }

  lemma ReadItemsLastStep(s: string, v: Value, after: string)
    requires ReadValue(s) == Some((v, after))
    requires |after| > 0 && after[0] == ']'
    ensures ReadItems(s) == Some(([v], after[1..]))
  {
    assert !StartsWith(after, ", ");
    assert StartsWith(after, "]");
  }

  lemma ReadMembersMoreStep(s: string, key: string, afterKey: string, v: Value, after: string,
                            ms: seq<(string, Value)>, rest: string)
    requires ReadString(s) == Some((key, afterKey))
    requires StartsWith(afterKey, ": ") && ReadValue(afterKey[2..]) == Some((v, after))
    requires StartsWith(after, ", ") && ReadMembers(after[2..]) == Some((ms, rest))
    ensures ReadMembers(s) == Some(([(key, v)] + ms, rest))
  {
  }

  lemma ReadMembersLastStep(s: string, key: string, afterKey: string, v: Value, after: string)
    requires ReadString(s) == Some((key, afterKey))
    requires StartsWith(afterKey, ": ") && ReadValue(afterKey[2..]) == Some((v, after))
    requires |after| > 0 && after[0] == '}'
    ensures ReadMembers(s) == Some(([(key, v)], after[1..]))
  {
    assert !StartsWith(after, ", ");
    assert StartsWith(after, "}");
  }

  /** Every value reads back as itself, when what follows it does not
      start with a digit. */
  lemma {:induction false} ReadSerialize(v: Value, rest: string)
    requires EndsNumber(rest)
    ensures ReadValue(Serialize(v) + rest) == Some((v, rest))
    decreases v, 2
  {
    match v
    case Str(t) =>
      ReadQuote(t, rest);
      ReadValueStrStep(Serialize(v) + rest, t, rest);
    case Int(n) =>
      SerializeStart(v);
      ReadIntToString(n, rest);
      ReadValueIntStep(Serialize(v) + rest, n, rest);
    case Array(items) =>
      ReadSerializeArray(v, rest);
    case Object(members) =>
      ReadSerializeObject(v, rest);
  }

  lemma {:induction false} ReadSerializeArray(v: Value, rest: string)
    requires v.Array? && EndsNumber(rest)
    ensures ReadValue(Serialize(v) + rest) == Some((v, rest))
    decreases v, 1
  {
    var s := Serialize(v) + rest;
    var items := v.items;
    if |items| == 0 {
      assert s == "[]" + rest;
      assert StartsWith(s, "[]") && s[2..] == rest;
    } else {
      var texts := ItemTexts(items);
      var body := Join(texts, ", ") + "]" + rest;
      assert s == "[" + body;
      assert texts[0..] == texts;
      ReadSerializeItems(v, 0, rest);
      SerializeStart(items[0]);
      JoinStart(texts, ", ");
      assert s[1..] == body;
      ReadValueArrayStep(s, items, rest);
    }
  }

  lemma {:induction false} ReadSerializeObject(v: Value, rest: string)
    requires v.Object? && EndsNumber(rest)
    ensures ReadValue(Serialize(v) + rest) == Some((v, rest))
    decreases v, 1
  {
    var s := Serialize(v) + rest;
    var members := v.members;
    if |members| == 0 {
      assert s == "{}" + rest;
      assert StartsWith(s, "{}") && s[2..] == rest;
    } else {
      var texts := MemberTexts(members);
      var body := Join(texts, ", ") + "}" + rest;
      assert s == "{" + body;
      assert texts[0..] == texts;
      ReadSerializeMembers(v, 0, rest);
      JoinStart(texts, ", ");
      assert s[1..] == body;
      ReadValueObjectStep(s, members, rest);
    }
  }

  /** The items of a list from index k on, and the closing bracket, read
      back as those items. */
  lemma {:induction false} ReadSerializeItems(v: Value, k: nat, rest: string)
    requires v.Array? && k < |v.items|
    requires EndsNumber(rest)
    ensures ReadItems(Join(ItemTexts(v.items)[k..], ", ") + "]" + rest) == Some((v.items[k..], rest))
    decreases v, 0, |v.items| - k
  {
    var texts := ItemTexts(v.items);
    var item := v.items[k];
    var s := Join(texts[k..], ", ") + "]" + rest;
    if k + 1 == |v.items| {
      assert texts[k..] == [Serialize(item)];
      assert s == Serialize(item) + ("]" + rest);
      ReadSerialize(item, "]" + rest);
      ReadItemsLastStep(s, item, "]" + rest);
      assert ("]" + rest)[1..] == rest;
      assert v.items[k..] == [item];
    } else {
      var tail := Join(texts[k + 1..], ", ") + "]" + rest;
      JoinTail(texts, k, ", ");
      assert s == Serialize(item) + (", " + tail);
      ReadSerialize(item, ", " + tail);
      assert (", " + tail)[2..] == tail;
      ReadSerializeItems(v, k + 1, rest);
      ReadItemsMoreStep(s, item, ", " + tail, v.items[k + 1..], rest);
      assert [item] + v.items[k + 1..] == v.items[k..];
    }
  }

  /** Reading the last `key: value` member of a dict, given that its key
      and value texts read back. */
  lemma ReadLastMember(s: string, keyText: string, key: string, valueText: string, value: Value, rest: string)
    requires s == keyText + (": " + (valueText + ("}" + rest)))
    requires ReadString(s) == Some((key, ": " + (valueText + ("}" + rest))))
    requires ReadValue(valueText + ("}" + rest)) == Some((value, "}" + rest))
    ensures ReadMembers(s) == Some(([(key, value)], rest))
  {
    var afterKey := ": " + (valueText + ("}" + rest));
    assert afterKey[2..] == valueText + ("}" + rest);
    ReadMembersLastStep(s, key, afterKey, value, "}" + rest);
    assert ("}" + rest)[1..] == rest;
  }

  /** Reading a `key: value` member followed by more members, given that
      its key and value texts and the members after it read back. */
  lemma ReadMoreMembers(s: string, keyText: string, key: string, valueText: string, value: Value,
                        tail: string, ms: seq<(string, Value)>, rest: string)
    requires s == keyText + (": " + (valueText + (", " + tail)))
    requires ReadString(s) == Some((key, ": " + (valueText + (", " + tail))))
    requires ReadValue(valueText + (", " + tail)) == Some((value, ", " + tail))
    requires ReadMembers(tail) == Some((ms, rest))
    ensures ReadMembers(s) == Some(([(key, value)] + ms, rest))
  {
    var afterKey := ": " + (valueText + (", " + tail));
    assert afterKey[2..] == valueText + (", " + tail);
    assert (", " + tail)[2..] == tail;
    ReadMembersMoreStep(s, key, afterKey, value, ", " + tail, ms, rest);
  }

  /** The join of the parts from index k on: part k, then the separator
      and the join of the rest if there is more. */
  lemma JoinFrom(parts: seq<string>, k: nat, sep: string)
    requires k < |parts|
    ensures k + 1 == |parts| ==> Join(parts[k..], sep) == parts[k]
    ensures k + 1 < |parts| ==> Join(parts[k..], sep) == parts[k] + (sep + Join(parts[k + 1..], sep))
  {
    if k + 1 == |parts| {
      assert parts[k..] == [parts[k]];
    } else {
      JoinTail(parts, k, sep);
    }
  }

  /** The members of a dict from index k on, and the closing brace, read
      back as those members. */
  lemma {:induction false} ReadSerializeMembers(v: Value, k: nat, rest: string)
    requires v.Object? && k < |v.members|
    requires EndsNumber(rest)
    ensures ReadMembers(Join(MemberTexts(v.members)[k..], ", ") + "}" + rest) == Some((v.members[k..], rest))
    decreases v, 0, |v.members| - k, 1
  {
    if k + 1 == |v.members| {
      ReadSerializeLastMember(v, k, rest);
    } else {
      ReadSerializeMoreMembers(v, k, rest);
    }
  }

  lemma {:induction false} ReadSerializeLastMember(v: Value, k: nat, rest: string)
    requires v.Object? && k + 1 == |v.members|
    requires EndsNumber(rest)
    ensures ReadMembers(Join(MemberTexts(v.members)[k..], ", ") + "}" + rest) == Some((v.members[k..], rest))
    decreases v, 0, |v.members| - k, 0
  {
    var texts := MemberTexts(v.members);
    var key, value := v.members[k].0, v.members[k].1;
    assert value < v.members[k];
    var keyText, valueText := Quote(key), Serialize(value);
    JoinFrom(texts, k, ", ");
    assert texts[k] == MemberText(v.members[k]);
    var s := Join(texts[k..], ", ") + "}" + rest;
    assert s == keyText + (": " + (valueText + ("}" + rest)));
    ReadSerialize(value, "}" + rest);
    ReadQuote(key, ": " + (valueText + ("}" + rest)));
    ReadLastMember(s, keyText, key, valueText, value, rest);
    assert v.members[k..] == [(key, value)];
  }

  /** The text of the members from index k on, split at the end of the
      k-th member's value when more members follow. */
  lemma MoreMembersText(members: seq<(string, Value)>, k: nat, rest: string)
    requires k + 1 < |members|
    ensures Join(MemberTexts(members)[k..], ", ") + "}" + rest ==
      Quote(members[k].0) + (": " + (Serialize(members[k].1) + (", " + (Join(MemberTexts(members)[k + 1..], ", ") + "}" + rest))))
  {
    var texts := MemberTexts(members);
    JoinFrom(texts, k, ", ");
    assert texts[k] == MemberText(members[k]);
    MemberRegroup(Quote(members[k].0), Serialize(members[k].1), Join(texts[k + 1..], ", "), rest);
  }

  lemma MemberRegroup(q: string, v: string, m: string, rest: string)
    ensures q + ": " + v + (", " + m) + "}" + rest == q + (": " + (v + (", " + (m + "}" + rest))))
  {
  }

  lemma {:induction false} ReadSerializeMoreMembers(v: Value, k: nat, rest: string)
    requires v.Object? && k + 1 < |v.members|
    requires EndsNumber(rest)
    ensures ReadMembers(Join(MemberTexts(v.members)[k..], ", ") + "}" + rest) == Some((v.members[k..], rest))
    decreases v, 0, |v.members| - k, 0
  {
    var key, value := v.members[k].0, v.members[k].1;
    assert value < v.members[k];
    var s := Join(MemberTexts(v.members)[k..], ", ") + "}" + rest;
    var tail := Join(MemberTexts(v.members)[k + 1..], ", ") + "}" + rest;
    MoreMembersText(v.members, k, rest);
    ReadSerialize(value, ", " + tail);
    ReadQuote(key, ": " + (Serialize(value) + (", " + tail)));
    ReadSerializeMembers(v, k + 1, rest);
    ReadMoreMembers(s, Quote(key), key, Serialize(value), value, tail, v.members[k + 1..], rest);
    assert [(key, value)] + v.members[k + 1..] == v.members[k..];
  }

  /** A serialised document reads back as exactly the value it was made from. */
  lemma {:induction false} ReadDocumentSerialize(v: Value)
    ensures ReadDocument(Serialize(v)) == Some(v)
  {
    assert Serialize(v) + "" == Serialize(v);
    ReadSerialize(v, "");
  }
}
