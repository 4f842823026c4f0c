/**
  The round trip between the encoder and `json.loads`: decoding the text the
  encoder writes for a value gives back that value as a consumer holds it
  (`Normalize`): decimals become an `int` or a `float` of the same value.
 */
module JsonRoundTrip {
  import opened Options
  import opened Decimals
  import opened Digits
  import opened Json
  import opened DecimalEncoder
  import opened JsonEncode
  import opened JsonDecode

  /** What may follow a number token without being read as part of it. */
  predicate NumberEnd(rest: string)
  {
    |rest| == 0 || (!IsDigit(rest[0]) && rest[0] != '.')
  }

  lemma SkipNothing(t: string)
    requires |t| > 0 && !IsWhitespace(t[0])
    ensures SkipWhitespace(t) == t
  {
  }

  lemma SkipSpace(t: string)
    ensures SkipWhitespace(" " + t) == SkipWhitespace(t)
  {
    assert (" " + t)[1..] == t;
  }

  /** One escaped character reads back as that character. */
  lemma EscapeCharRoundTrip(c: char, t: string)
    ensures ParseChars(EscapeChar(c) + t) ==
      match ParseChars(t)
      case None => None
      case Some((str, rest)) => Some(([c] + str, rest))
  {
    var e := EscapeChar(c);
    var s := e + t;
    if e == [c] {
      assert s[0] == c && s[1..] == t;
    } else {
      EscapeUnescape(c, t);
      assert s[0] == '\\' && s[1..] == e[1..] + t;
    }
  }

  /** An escape sequence, backslash aside, is read back as its character. */
  lemma EscapeUnescape(c: char, t: string)
    requires EscapeChar(c) != [c]
    ensures EscapeChar(c)[0] == '\\' && Unescape(EscapeChar(c)[1..] + t) == Some((c, t))
  {
    if c < ' ' && c != '\n' && c != '\r' && c != '\t' && c != 8 as char && c != 12 as char {
      EscapeHex(c, t);
    } else {
      assert (EscapeChar(c)[1..] + t)[1..] == t;
    }
  }

  /** A control character without a short escape is written `\u00XX` and read back. */
  lemma EscapeHex(c: char, t: string)
    requires c < ' ' && c != '\n' && c != '\r' && c != '\t' && c != 8 as char && c != 12 as char
    ensures EscapeChar(c)[0] == '\\' && Unescape(EscapeChar(c)[1..] + t) == Some((c, t))
  {
    var n := c as int;
    var e := EscapeChar(c);
    HexRoundTrip(n / 16);
    HexRoundTrip(n % 16);
    assert e[1..] == "u00" + [HexChar(n / 16), HexChar(n % 16)];
    assert (e[1..] + t)[5..] == t;
  }

  /** An escaped string and its closing quote read back as the string. */
  lemma {:induction false} StringRoundTrip(s: string, rest: string)
    ensures ParseChars(Escape(s) + "\"" + rest) == Some((s, rest))
    decreases |s|
  {
    if |s| == 0 {
      assert Escape(s) + "\"" + rest == "\"" + rest;
      assert ("\"" + rest)[1..] == rest;
    } else {
      var t := Escape(s[1..]) + "\"" + rest;
      assert Escape(s) + "\"" + rest == EscapeChar(s[0]) + t;
      EscapeCharRoundTrip(s[0], t);
      StringRoundTrip(s[1..], rest);
      assert [s[0]] + s[1..] == s;
    }
  }

  /** The shortest digit string of a number, followed by a non-digit, is read whole. */
  lemma WholeRoundTrip(w: nat, rest: string)
    requires |rest| == 0 || !IsDigit(rest[0])
    ensures var t := NatDigits(w) + rest;
      |t| > 0 && IsDigit(t[0]) && WholeLength(t) == |NatDigits(w)| &&
      t[..WholeLength(t)] == NatDigits(w) && t[WholeLength(t)..] == rest
  {
    DigitRunOf(NatDigits(w), rest);
    if w == 0 {
      assert NatDigits(w) == "0";
    }
  }

  /** `ParseNumber` sees the sign exactly when one was written, and the digits after it. */
  lemma SignStrip(neg: bool, t: string)
    requires |t| > 0 && IsDigit(t[0])
    ensures var s := (if neg then "-" else "") + t;
      (|s| > 0 && s[0] == '-') == neg && (if neg then s[1..] else s) == t
  {
    var s := (if neg then "-" else "") + t;
    if neg {
      assert s[0] == '-' && s[1..] == t;
    } else {
      assert s == t;
    }
  }

  /** An optional sign followed by whole digits: `ParseNumber` reads the sign, then the digits. */
  lemma SignedRoundTrip(neg: bool, w: nat, u: string)
    requires |u| == 0 || !IsDigit(u[0])
    ensures ParseNumber((if neg then "-" else "") + NatDigits(w) + u) == NumberAfterWhole(neg, w, u)
  {
    var d := NatDigits(w);
    var t := d + u;
    assert (if neg then "-" else "") + d + u == (if neg then "-" else "") + t;
    WholeRoundTrip(w, u);
    SignStrip(neg, t);
    assert DigitsValue(t[..WholeLength(t)]) == w;
  }

  /** An integer token reads back as the same integer. */
  lemma IntTokenRoundTrip(i: int, rest: string)
    requires NumberEnd(rest)
    ensures ParseNumber(IntToken(i) + rest) == Some((Int(i), rest))
  {
    SignedRoundTrip(i < 0, if i < 0 then -i else i, rest);
  }

  /** The text after a point that precedes a run of digits. */
  lemma AfterPoint(d: string, rest: string)
    requires AllDigits(d) && NumberEnd(rest)
    ensures var u := "." + d + rest;
      |u| >= 1 && u[0] == '.' && DigitRun(u[1..]) == |d| && u[1..][..|d|] == d && u[1..][|d|..] == rest
  {
    var u := "." + d + rest;
    assert u[1..] == d + rest;
    DigitRunOf(d, rest);
  }

  /** A point and a run of digits after the whole part make a float of those digits. */
  lemma FloatAfterWhole(neg: bool, whole: nat, d: string, rest: string)
    requires |d| >= 1 && AllDigits(d) && NumberEnd(rest)
    ensures NumberAfterWhole(neg, whole, "." + d + rest) == Some((FloatOf(neg, whole, d), rest))
  {
    AfterPoint(d, rest);
    var u := "." + d + rest;
    assert IsDigit(u[1]) by {
      assert u[1] == u[1..][..|d|][0];
    }
  }

  /** A point and `k` fractional digits complete a float token. */
  lemma FractionRoundTrip(neg: bool, w: nat, fr: nat, k: nat, m: nat, rest: string)
    requires k >= 1 && fr < Pow10(k) && NumberEnd(rest)
    requires m == w * Pow10(k) + fr
    ensures NumberAfterWhole(neg, w, "." + PadDigits(fr, k) + rest) ==
      Some((Float(Canonical(Decimal(if neg then -(m as int) else m, -(k as int)))), rest))
  {
    FloatAfterWhole(neg, w, PadDigits(fr, k), rest);
  }

  lemma PositionalShape(a: nat, k: nat) returns (w: nat, fr: nat)
    requires k >= 1
    ensures fr < Pow10(k) && a == w * Pow10(k) + fr
    ensures Positional(a, k) == NatDigits(w) + ("." + PadDigits(fr, k))
  {
    var p := Pow10(k);
    DivMod(a, p);
    w, fr := a / p, a % p;
  }

  lemma Reassociate(sign: string, d: string, f: string, rest: string)
    ensures sign + (d + f) + rest == sign + d + (f + rest)
  {
  }

  /** Whole digits, a point and `k` fractional digits read back as `a / 10^k`. */
  lemma PositionalRoundTrip(neg: bool, a: nat, k: nat, rest: string)
    requires k >= 1 && NumberEnd(rest)
    ensures ParseNumber((if neg then "-" else "") + Positional(a, k) + rest) ==
      Some((Float(Canonical(Decimal(if neg then -(a as int) else a, -(k as int)))), rest))
  {
    var w, fr := PositionalShape(a, k);
    var f := "." + PadDigits(fr, k);
    Reassociate(if neg then "-" else "", NatDigits(w), f, rest);
    assert f + rest == "." + PadDigits(fr, k) + rest;
    SignedRoundTrip(neg, w, f + rest);
    FractionRoundTrip(neg, w, fr, k, a, rest);
  }

  /** A float token reads back as the canonical form of the same value. */
  lemma FloatTokenRoundTrip(f: Decimal, rest: string)
    requires NumberEnd(rest)
    ensures ParseNumber(FloatToken(f) + rest) == Some((Float(Canonical(f)), rest))
  {
    var c := Canonical(f);
    var m := c.coefficient;
    var k: nat := -c.exponent;
    var a: nat := if m < 0 then -m else m;
    assert FloatToken(f) == (if m < 0 then "-" else "") + Positional(a, k);
    PositionalRoundTrip(m < 0, a, k, rest);
    assert Decimal(if m < 0 then -(a as int) else a, -(k as int)) == c;
    CanonicalFixesCanonical(c);
  }

  /** Text starting like a number is parsed as a number. */
  lemma ParseValueNumber(s: string)
    requires |s| > 0 && (s[0] == '-' || IsDigit(s[0]))
    ensures ParseValue(s) == ParseNumber(s)
  {
    assert s[0] != '"' && s[0] != '[' && s[0] != '{';
  }

  lemma NumberRoundTrip(v: Value, rest: string)
    requires v.Int? || v.Float?
    requires NumberEnd(rest)
    ensures ParseValue(NumberToken(v) + rest) == Some((Normalize(v), rest))
  {
    var s := NumberToken(v) + rest;
    assert s[0] == NumberToken(v)[0];
    ParseValueNumber(s);
    if v.Int? {
      IntTokenRoundTrip(v.i, rest);
    } else {
      FloatTokenRoundTrip(v.f, rest);
    }
  }

  /** Decoding the encoding of a value, followed by anything a number cannot continue into. */
  lemma {:induction false} ValueRoundTrip(v: Value, rest: string)
    requires WellFormed(v) && NumberEnd(rest)
    ensures ParseValue(Serialize(v) + rest) == Some((Normalize(v), rest))
    decreases v, 3
  {
    match v
    case Null => LiteralRoundTrip(v, rest);
    case Bool(_) => LiteralRoundTrip(v, rest);
    case Int(_) => NumberRoundTrip(v, rest);
    case Float(_) => NumberRoundTrip(v, rest);
    case Dec(d) =>
      NumberRoundTrip(Default(d), rest);
      if Default(d).Float? {
        CanonicalFixesCanonical(Canonical(Default(d).f));
      }
    case Str(str) => StrRoundTrip(str, rest);
    case Array(items) => ArrayRoundTrip(items, rest);
    case Object(ms) => ObjectRoundTrip(ms, rest);
  }

  lemma LiteralRoundTrip(v: Value, rest: string)
    requires v.Null? || v.Bool?
    ensures ParseValue(Serialize(v) + rest) == Some((v, rest))
  {
    var s := Serialize(v) + rest;
    if v.Null? {
      assert s[..4] == "null" && s[4..] == rest;
    } else if v.b {
      assert s[..4] == "true" && s[4..] == rest;
    } else {
      assert s[..4][0] == 'f';
      assert s[..5] == "false" && s[5..] == rest;
    }
  }

  lemma StrRoundTrip(str: string, rest: string)
    ensures ParseValue(Serialize(Str(str)) + rest) == Some((Str(str), rest))
  {
    var s := Serialize(Str(str)) + rest;
    assert s[1..] == Escape(str) + "\"" + rest;
    StringRoundTrip(str, rest);
  }

  /** Text opening with a bracket is parsed as an array. */
  lemma ParseValueArray(body: string)
    ensures ParseValue("[" + body) == ParseArray(SkipWhitespace(body))
  {
    var s := "[" + body;
    assert s[0] == '[' && s[1..] == body;
  }

  /** Text opening with a brace is parsed as an object. */
  lemma ParseValueObject(body: string)
    ensures ParseValue("{" + body) == ParseObject(SkipWhitespace(body))
  {
    var s := "{" + body;
    assert s[0] == '{' && s[1..] == body;
    assert s[0] != '"' && s[0] != '[';
  }

  /** An array's text is its items' text between brackets. */
  lemma ArrayText(items: seq<Value>, rest: string)
    ensures Serialize(Array(items)) + rest == "[" + (SerializeItems(items) + "]" + rest)
  {
    assert Serialize(Array(items)) == "[" + SerializeItems(items) + "]";
  }

  /** An object's text is its pairs' text between braces. */
  lemma ObjectText(ms: seq<Member>, rest: string)
    ensures Serialize(Object(ms)) + rest == "{" + (SerializeMembers(ms) + "}" + rest)
  {
    assert Serialize(Object(ms)) == "{" + SerializeMembers(ms) + "}";
  }

  lemma {:induction false} ArrayRoundTrip(items: seq<Value>, rest: string)
    requires AllWellFormed(items)
    ensures ParseValue(Serialize(Array(items)) + rest) == Some((Normalize(Array(items)), rest))
    decreases items, 2
  {
    ArrayText(items, rest);
    ArrayBodyRoundTrip(items, rest);
    ParseValueArray(SerializeItems(items) + "]" + rest);
  }

  /** What follows the `[`: the items and the closing bracket. */
  lemma {:induction false} ArrayBodyRoundTrip(items: seq<Value>, rest: string)
    requires AllWellFormed(items)
    ensures ParseArray(SkipWhitespace(SerializeItems(items) + "]" + rest)) ==
      Some((Array(NormalizeItems(items)), rest))
    decreases items, 1
  {
    if |items| == 0 {
      assert SerializeItems(items) + "]" + rest == "]" + rest;
      EmptyArrayRoundTrip(rest);
    } else {
      var body := SerializeItems(items) + "]" + rest;
      ItemsStart(items);
      SkipNothing(body);
      ItemsRoundTrip(items, rest);
      assert body[0] != ']';
    }
  }

  lemma EmptyArrayRoundTrip(rest: string)
    ensures ParseArray(SkipWhitespace("]" + rest)) == Some((Array([]), rest))
  {
    var body := "]" + rest;
    assert body[0] == ']' && body[1..] == rest;
    SkipNothing(body);
  }

  lemma {:induction false} ObjectRoundTrip(ms: seq<Member>, rest: string)
    requires DistinctKeys(ms) && MembersWellFormed(ms)
    ensures ParseValue(Serialize(Object(ms)) + rest) == Some((Normalize(Object(ms)), rest))
    decreases ms, 2
  {
    ObjectText(ms, rest);
    ObjectBodyRoundTrip(ms, rest);
    ParseValueObject(SerializeMembers(ms) + "}" + rest);
    var r := NormalizeMembers(ms);
    assert DistinctKeys(r);
    DedupDistinct(r);
  }

  /** What follows the `{`: the pairs and the closing brace, before duplicate keys are merged. */
  lemma {:induction false} ObjectBodyRoundTrip(ms: seq<Member>, rest: string)
    requires MembersWellFormed(ms)
    ensures ParseObject(SkipWhitespace(SerializeMembers(ms) + "}" + rest)) ==
      Some((Object(Dedup(NormalizeMembers(ms))), rest))
    decreases ms, 1
  {
    if |ms| == 0 {
      assert SerializeMembers(ms) + "}" + rest == "}" + rest;
      EmptyObjectRoundTrip(rest);
    } else {
      var body := SerializeMembers(ms) + "}" + rest;
      MembersStart(ms);
      SkipNothing(body);
      MembersRoundTrip(ms, rest);
      assert body[0] != '}';
    }
  }

  lemma EmptyObjectRoundTrip(rest: string)
    ensures ParseObject(SkipWhitespace("}" + rest)) == Some((Object([]), rest))
  {
    var body := "}" + rest;
    assert body[0] == '}' && body[1..] == rest;
    SkipNothing(body);
  }

  lemma ItemsStart(items: seq<Value>)
    requires |items| >= 1
    ensures |SerializeItems(items)| >= 1
    ensures SerializeItems(items)[0] == Serialize(items[0])[0]
  {
  }

  lemma MembersStart(ms: seq<Member>)
    requires |ms| >= 1
    ensures |SerializeMembers(ms)| >= 1 && SerializeMembers(ms)[0] == '"'
  {
  }

  /** After an item, a closing bracket ends the array. */
  lemma ItemsAfterClose(v: Value, rest: string)
    ensures ParseItemsAfter(v, "]" + rest) == Some(([v], rest))
  {
    assert ("]" + rest)[1..] == rest;
  }

  /** After an item, `, ` introduces the remaining items. */
  lemma ItemsAfterComma(v: Value, t: string)
    requires |t| > 0 && !IsWhitespace(t[0])
    ensures ParseItemsAfter(v, ", " + t) ==
      match ParseItems(t)
      case None => None
      case Some((vs, rest')) => Some(([v] + vs, rest'))
  {
    assert (", " + t)[1..] == " " + t;
    SkipSpace(t);
    SkipNothing(t);
  }

  lemma {:induction false} ItemsRoundTrip(items: seq<Value>, rest: string)
    requires |items| >= 1 && AllWellFormed(items)
    ensures ParseItems(SerializeItems(items) + "]" + rest) == Some((NormalizeItems(items), rest))
    decreases items, 0
  {
    var x := items[0];
    var nx := Normalize(x);
    ItemsText(items, rest);
    if |items| == 1 {
      ValueRoundTrip(x, "]" + rest);
      ItemsAfterClose(nx, rest);
      assert NormalizeItems(items) == [nx];
    } else {
      var tail := items[1..];
      var t := SerializeItems(tail) + "]" + rest;
      ValueRoundTrip(x, ", " + t);
      ItemsStart(tail);
      ItemsAfterComma(nx, t);
      ItemsRoundTrip(tail, rest);
      assert NormalizeItems(items) == [nx] + NormalizeItems(tail);
    }
  }

  /** After a pair, a closing brace ends the object. */
  lemma MembersAfterClose(m: Member, rest: string)
    ensures ParseMembersAfter(m, "}" + rest) == Some(([m], rest))
  {
    assert ("}" + rest)[1..] == rest;
  }

  /** After a pair, `, ` introduces the remaining pairs. */
  lemma MembersAfterComma(m: Member, t: string)
    requires |t| > 0 && !IsWhitespace(t[0])
    ensures ParseMembersAfter(m, ", " + t) ==
      match ParseMembers(t)
      case None => None
      case Some((ms, rest')) => Some(([m] + ms, rest'))
  {
    assert (", " + t)[1..] == " " + t;
    SkipSpace(t);
    SkipNothing(t);
  }

  /** Regrouping a concatenation of five strings to the right. */
  lemma Regroup(a: string, b: string, c: string, d: string, e: string)
    ensures a + b + c + d + e == a + (b + (c + d + e))
  {
  }

  /** Regrouping a concatenation of three strings to the right. */
  lemma Regroup3(a: string, b: string, c: string)
    ensures a + b + c == a + (b + c)
  {
  }

  /** A pair's text: the quoted key, `: ` and the value's text. */
  lemma MemberText(m: Member, after: string)
    ensures SerializeMember(m) + after ==
      "\"" + (Escape(m.key) + "\"" + (": " + (Serialize(m.value) + after)))
  {
    var q := "\"";
    var e := Escape(m.key);
    var tail := Serialize(m.value) + after;
    assert SerializeMember(m) == q + e + q + ": " + Serialize(m.value);
    Regroup(q + e + q, ": ", Serialize(m.value), after, "");
    Regroup(q, e, q, ": ", tail);
  }

  /** The pairs' text is the first pair's text followed by the closing brace or `, ` and the rest. */
  lemma MembersText(ms: seq<Member>, rest: string)
    requires |ms| >= 1
    ensures |ms| == 1 ==> SerializeMembers(ms) + "}" + rest == SerializeMember(ms[0]) + ("}" + rest)
    ensures |ms| > 1 ==>
      SerializeMembers(ms) + "}" + rest ==
      SerializeMember(ms[0]) + (", " + (SerializeMembers(ms[1..]) + "}" + rest))
  {
    if |ms| == 1 {
      Regroup3(SerializeMember(ms[0]), "}", rest);
    } else {
      Regroup(SerializeMember(ms[0]), ", ", SerializeMembers(ms[1..]), "}", rest);
    }
  }

  /** The items' text is the first item's text followed by the closing bracket or `, ` and the rest. */
  lemma ItemsText(items: seq<Value>, rest: string)
    requires |items| >= 1
    ensures |items| == 1 ==> SerializeItems(items) + "]" + rest == Serialize(items[0]) + ("]" + rest)
    ensures |items| > 1 ==>
      SerializeItems(items) + "]" + rest ==
      Serialize(items[0]) + (", " + (SerializeItems(items[1..]) + "]" + rest))
  {
    if |items| == 1 {
      Regroup3(Serialize(items[0]), "]", rest);
    } else {
      Regroup(Serialize(items[0]), ", ", SerializeItems(items[1..]), "]", rest);
    }
  }

  /** A key, then `: ` and text `vt`: the parser reads the key and moves on to the value. */
  lemma KeyRoundTrip(key: string, vt: string)
    requires |vt| > 0 && !IsWhitespace(vt[0])
    ensures var r := ParseValue(vt);
      ParseMembers("\"" + (Escape(key) + "\"" + (": " + vt))) ==
        if r.None? then None else ParseMembersAfter(Member(key, r.value.0), r.value.1)
  {
    var colon := ": " + vt;
    var s := "\"" + (Escape(key) + "\"" + colon);
    assert s[1..] == Escape(key) + "\"" + colon;
    StringRoundTrip(key, colon);
    SkipNothing(colon);
    assert colon[1..] == " " + vt;
    SkipSpace(vt);
    SkipNothing(vt);
  }

  /** A quoted key followed by `: ` and a value's text is read as that pair. */
  lemma MemberRoundTrip(m: Member, after: string)
    requires WellFormed(m.value) && NumberEnd(after)
    ensures ParseMembers(SerializeMember(m) + after) ==
      ParseMembersAfter(Member(m.key, Normalize(m.value)), after)
    decreases m, 0
  {
    MemberText(m, after);
    KeyRoundTrip(m.key, Serialize(m.value) + after);
    ValueRoundTrip(m.value, after);
  }

  lemma {:induction false} MembersRoundTrip(ms: seq<Member>, rest: string)
    requires |ms| >= 1 && MembersWellFormed(ms)
    ensures ParseMembers(SerializeMembers(ms) + "}" + rest) == Some((NormalizeMembers(ms), rest))
    decreases ms, 0
  {
    var m := ms[0];
    var nm := Member(m.key, Normalize(m.value));
    MembersText(ms, rest);
    if |ms| == 1 {
      MemberRoundTrip(m, "}" + rest);
      MembersAfterClose(nm, rest);
      assert NormalizeMembers(ms) == [nm];
    } else {
      var tail := ms[1..];
      var t := SerializeMembers(tail) + "}" + rest;
      MemberRoundTrip(m, ", " + t);
      MembersStart(tail);
      MembersAfterComma(nm, t);
      MembersRoundTrip(tail, rest);
      assert NormalizeMembers(ms) == [nm] + NormalizeMembers(tail);
    }
  }

  /** `json.loads(json.dumps(v, cls = DecimalEncoder))` gives back `v` as a consumer holds it. */
  lemma DecodeSerialize(v: Value)
    requires WellFormed(v)
    ensures Decode(Serialize(v)) == Some(Normalize(v))
  {
    SkipNothing(Serialize(v));
    ValueRoundTrip(v, "");
    assert Serialize(v) + "" == Serialize(v);
  }
}
