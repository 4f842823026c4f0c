/**
  `json.dumps(value, cls = DecimalEncoder)`: the text the success envelope
  carries. Items are separated by ", " and keys by ": " (Python's one-line
  separators); strings escape what Python's encoder escapes when it leaves
  non-ASCII characters as they are.
 */
module JsonEncode {
  import opened Decimals
  import opened Digits
  import opened Json
  import opened DecimalEncoder

  /** The escape sequence for one string character. */
  function EscapeChar(c: char): (s: string)
    ensures |s| >= 1
  {
    if c == '"' then "\\\""
    else if c == '\\' then "\\\\"
    else if c == '\n' then "\\n"
    else if c == '\r' then "\\r"
    else if c == '\t' then "\\t"
    else if c == 8 as char then "\\b"
    else if c == 12 as char then "\\f"
    else if c < ' ' then "\\u00" + [HexChar(c as int / 16), HexChar(c as int % 16)]
    else [c]
  }

  function Escape(s: string): string
  {
    if |s| == 0 then "" else EscapeChar(s[0]) + Escape(s[1..])
  }

  /** A string literal: the escaped text between double quotes. */
  function Quote(s: string): (q: string)
    ensures |q| >= 2 && q[0] == '"'
  {
    "\"" + Escape(s) + "\""
  }

  /** An integer token: an optional minus sign and the shortest digit string. */
  function IntToken(i: int): (t: string)
    ensures |t| >= 1 && (t[0] == '-' || IsDigit(t[0]))
  {
    (if i < 0 then "-" else "") + NatDigits(if i < 0 then -i else i)
  }

  /** A float token: sign, whole digits, a point and the canonical fractional digits. */
  function FloatToken(f: Decimal): (t: string)
    ensures |t| >= 3 && (t[0] == '-' || IsDigit(t[0]))
  {
    var c := Canonical(f);
    FractionToken(c.coefficient, -c.exponent)
  }

  /** The positional spelling of `m / 10^k` with exactly `k` fractional digits. */
  function FractionToken(m: int, k: nat): (t: string)
    requires k >= 1
    ensures |t| >= 3 && (t[0] == '-' || IsDigit(t[0]))
  {
    (if m < 0 then "-" else "") + Positional(if m < 0 then -m else m, k)
  }

  /** Whole digits of `a / 10^k`, a point, and the `k` digits of the remainder. */
  function Positional(a: nat, k: nat): (t: string)
    requires k >= 1
    ensures |t| >= 3 && IsDigit(t[0])
  {
    var p := Pow10(k);
    DivMod(a, p);
    NatDigits(a / p) + "." + PadDigits(a % p, k)
  }

  /** The token of a number `DecimalEncoder.default` produced. */
  function NumberToken(n: Value): (t: string)
    requires n.Int? || n.Float?
    ensures |t| >= 1 && (t[0] == '-' || IsDigit(t[0]))
  {
    if n.Int? then IntToken(n.i) else FloatToken(n.f)
  }

  /** The encoded text of a value; it never starts with whitespace or a closing delimiter. */
  function Serialize(v: Value): (t: string)
    ensures |t| >= 1 && !IsWhitespace(t[0]) && t[0] != ']' && t[0] != '}'
  {
    match v
    case Null => "null"
    case Bool(b) => if b then "true" else "false"
    case Int(i) => IntToken(i)
    case Float(f) => FloatToken(f)
    case Dec(d) => NumberToken(Default(d))
    case Str(s) => Quote(s)
    case Array(items) => "[" + SerializeItems(items) + "]"
    case Object(ms) => "{" + SerializeMembers(ms) + "}"
  }

  function SerializeItems(items: seq<Value>): string
  {
    if |items| == 0 then ""
    else if |items| == 1 then Serialize(items[0])
    else Serialize(items[0]) + ", " + SerializeItems(items[1..])
  }

  function SerializeMember(m: Member): string
  {
    Quote(m.key) + ": " + Serialize(m.value)
  }

  function SerializeMembers(ms: seq<Member>): string
  {
    if |ms| == 0 then ""
    else if |ms| == 1 then SerializeMember(ms[0])
    else SerializeMember(ms[0]) + ", " + SerializeMembers(ms[1..])
  }
}
