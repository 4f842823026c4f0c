/**
  The values a handler returns and `json.loads` produces: Python's `None`,
  `bool`, `int`, `float`, `decimal.Decimal`, `str`, `list` and `dict` (with
  `str` keys only, in insertion order; the other key types `json.dumps`
  accepts are not modelled).
 */
module Json {
  import opened Decimals

  datatype Value =
    | Null
    | Bool(b: bool)
    | Int(i: int)
    /** A Python float; its value is kept exactly as a decimal (rounding is not modelled). */
    | Float(f: Decimal)
    /** A `decimal.Decimal`, which only the decimal-aware encoder can serialize. */
    | Dec(d: Decimal)
    | Str(s: string)
    | Array(items: seq<Value>)
    | Object(members: seq<Member>)

  /** One `key: value` entry of a dict. */
  datatype Member = Member(key: string, value: Value)

  /** A dict never holds the same key twice. */
  predicate DistinctKeys(ms: seq<Member>)
  {
    forall i, j :: 0 <= i < j < |ms| ==> ms[i].key != ms[j].key
  }

  /** Every dict inside the value has distinct keys, as Python dicts always do. */
  predicate WellFormed(v: Value)
  {
    match v
    case Array(items) => AllWellFormed(items)
    case Object(ms) => DistinctKeys(ms) && MembersWellFormed(ms)
    case _ => true
  }

  predicate AllWellFormed(items: seq<Value>)
  {
    forall i :: 0 <= i < |items| ==> WellFormed(items[i])
  }

  predicate MembersWellFormed(ms: seq<Member>)
  {
    forall i :: 0 <= i < |ms| ==> WellFormed(ms[i].value)
  }

  /**
    A value as a JSON consumer can hold it: no `Decimal` anywhere, and every
    float in the canonical form its shortest printing reads back as.
   */
  predicate IsPlain(v: Value)
  {
    match v
    case Dec(_) => false
    case Float(f) => IsCanonicalFraction(f)
    case Array(items) => AllPlain(items)
    case Object(ms) => MembersPlain(ms)
    case _ => true
  }

  predicate AllPlain(items: seq<Value>)
  {
    forall i :: 0 <= i < |items| ==> IsPlain(items[i])
  }

  predicate MembersPlain(ms: seq<Member>)
  {
    forall i :: 0 <= i < |ms| ==> IsPlain(ms[i].value)
  }

  /** The insignificant whitespace of the JSON grammar (what `json.loads` skips). */
  predicate IsWhitespace(c: char)
  {
    c == ' ' || c == '\t' || c == '\n' || c == '\r'
  }
}
