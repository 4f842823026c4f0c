/**
  `json.loads`: the JSON text grammar read into values. Numbers without a
  fractional part become `Int`, numbers with one become `Float` (exactly, in
  canonical form); a repeated object key keeps its first position and its
  last value, as building a Python dict does.
 */
module JsonDecode {
  import opened Options
  import opened Decimals
  import opened Digits
  import opened Json

  /** Drops leading insignificant whitespace. */
  function SkipWhitespace(s: string): (r: string)
    ensures |r| <= |s| && r == s[|s| - |r|..]
    ensures |r| == 0 || !IsWhitespace(r[0])
  {
    if |s| > 0 && IsWhitespace(s[0]) then SkipWhitespace(s[1..]) else s
  }

  /** The character an escape sequence stands for; `s` follows the backslash. */
  function Unescape(s: string): (r: Option<(char, string)>)
    ensures r.Some? ==> |r.value.1| < |s|
  {
    if |s| == 0 then None
    else if s[0] == '"' || s[0] == '\\' || s[0] == '/' then Some((s[0], s[1..]))
    else if s[0] == 'b' then Some((8 as char, s[1..]))
    else if s[0] == 'f' then Some((12 as char, s[1..]))
    else if s[0] == 'n' then Some(('\n', s[1..]))
    else if s[0] == 'r' then Some(('\r', s[1..]))
    else if s[0] == 't' then Some(('\t', s[1..]))
    else if s[0] == 'u' && |s| >= 5 && IsHexDigit(s[1]) && IsHexDigit(s[2]) && IsHexDigit(s[3]) && IsHexDigit(s[4]) then
      var code := HexValue(s[1]) * 4096 + HexValue(s[2]) * 256 + HexValue(s[3]) * 16 + HexValue(s[4]);
      if 0xD800 <= code < 0xE000 then None else Some((code as char, s[5..]))
    else None
  }

  /** The characters of a string literal up to its closing quote; `s` follows the opening quote. */
  function ParseChars(s: string): (r: Option<(string, string)>)
    ensures r.Some? ==> |r.value.1| < |s|
    decreases |s|
  {
    if |s| == 0 then None
    else if s[0] == '"' then Some(("", s[1..]))
    else if s[0] == '\\' then
      match Unescape(s[1..])
      case None => None
      case Some((c, t)) =>
        match ParseChars(t)
        case None => None
        case Some((str, rest)) => Some(([c] + str, rest))
    else if s[0] < ' ' then None
    else
      match ParseChars(s[1..])
      case None => None
      case Some((str, rest)) => Some(([s[0]] + str, rest))
  }

  /** A number token: `-?(0|[1-9][0-9]*)(\.[0-9]+)?`. */
  function ParseNumber(s: string): (r: Option<(Value, string)>)
    ensures r.Some? ==> |r.value.1| < |s| && IsPlain(r.value.0) && (r.value.0.Int? || r.value.0.Float?)
  {
    var neg := |s| > 0 && s[0] == '-';
    var t := if neg then s[1..] else s;
    if |t| == 0 || !IsDigit(t[0]) then None
    else
      var n := WholeLength(t);
      NumberAfterWhole(neg, DigitsValue(t[..n]), t[n..])
  }

  /** Length of the whole part: a lone `0`, or a run of digits starting with a non-zero one. */
  function WholeLength(t: string): (n: nat)
    requires |t| > 0 && IsDigit(t[0])
    ensures 1 <= n <= |t| && AllDigits(t[..n])
  {
    if t[0] == '0' then 1 else DigitRun(t)
  }

  /** The optional fractional part after the whole digits, which decides `int` or `float`. */
  function NumberAfterWhole(neg: bool, whole: nat, u: string): (r: Option<(Value, string)>)
    ensures r.Some? ==> |r.value.1| <= |u| && IsPlain(r.value.0) && (r.value.0.Int? || r.value.0.Float?)
  {
    if |u| >= 2 && u[0] == '.' && IsDigit(u[1]) then
      var k := DigitRun(u[1..]);
      Some((FloatOf(neg, whole, u[1..][..k]), u[1..][k..]))
    else Some((Int(if neg then -(whole as int) else whole), u))
  }

  /** The float a token spells with these whole and fractional digits, in canonical form. */
  function FloatOf(neg: bool, whole: nat, fraction: string): (v: Value)
    requires AllDigits(fraction)
    ensures v.Float? && IsPlain(v)
  {
    var k := |fraction|;
    var m := whole * Pow10(k) + DigitsValue(fraction);
    Float(Canonical(Decimal(if neg then -m else m, -(k as int))))
  }

  /** The dict assignment `d[m.key] = m.value`: replace in place, or append a new key. */
  function Insert(ms: seq<Member>, m: Member): (r: seq<Member>)
    ensures m in r
    ensures forall x :: x in r ==> x == m || x in ms
    ensures DistinctKeys(ms) ==> DistinctKeys(r)
  {
    if |ms| == 0 then [m]
    else if ms[0].key == m.key then [m] + ms[1..]
    else
      var rest := Insert(ms[1..], m);
      assert DistinctKeys(ms) ==> DistinctKeys([ms[0]] + rest) by {
        if DistinctKeys(ms) {
          assert DistinctKeys(ms[1..]);
          forall x | x in rest ensures x.key != ms[0].key {
            if x != m {
              var j :| 0 <= j < |ms[1..]| && ms[1..][j] == x;
              assert x == ms[j + 1];
            }
          }
        }
      }
      [ms[0]] + rest
  }

  /** The position of the first member with key `k`, or `|ms|` when there is none. */
  function KeyIndex(ms: seq<Member>, k: string): (i: nat)
    ensures i <= |ms|
    ensures i < |ms| ==> ms[i].key == k
    ensures forall j :: 0 <= j < i ==> ms[j].key != k
  {
    if |ms| == 0 || ms[0].key == k then 0 else 1 + KeyIndex(ms[1..], k)
  }

  /**
    Where the assignment puts the member: in place of the first member with
    the same key, whose position is kept and whose value is replaced, or at the
    end when the key is new. Every other member keeps its place.
   */
  lemma {:induction false} InsertPlace(ms: seq<Member>, m: Member)
    ensures var i, r := KeyIndex(ms, m.key), Insert(ms, m);
      |r| == (if i < |ms| then |ms| else |ms| + 1) && r[i] == m &&
      forall j :: 0 <= j < |ms| && j != i ==> r[j] == ms[j]
  {
    if |ms| > 0 && ms[0].key != m.key {
      var tail := ms[1..];
      InsertPlace(tail, m);
      InsertCons(ms, m);
      var i, r := KeyIndex(ms, m.key), Insert(ms, m);
      forall j | 0 <= j < |ms| && j != i
        ensures r[j] == ms[j]
      {
        if j > 0 {
          assert r[j] == Insert(tail, m)[j - 1];
          assert ms[j] == tail[j - 1];
        }
      }
    }
  }

  /** No member under another key is lost. */
  lemma InsertKeeps(ms: seq<Member>, m: Member)
    ensures forall x :: x in ms && x.key != m.key ==> x in Insert(ms, m)
  {
    InsertPlace(ms, m);
    var i, r := KeyIndex(ms, m.key), Insert(ms, m);
    forall x | x in ms && x.key != m.key
      ensures x in r
    {
      var j :| 0 <= j < |ms| && ms[j] == x;
      assert r[j] == x;
    }
  }

  /** Past a member with another key, the assignment and the search both go on in the tail. */
  lemma InsertCons(ms: seq<Member>, m: Member)
    requires |ms| > 0 && ms[0].key != m.key
    ensures Insert(ms, m) == [ms[0]] + Insert(ms[1..], m)
    ensures KeyIndex(ms, m.key) == KeyIndex(ms[1..], m.key) + 1
  {
  }

  /** A key the dict does not hold yet goes at the end. */
  lemma {:induction false} InsertFresh(ms: seq<Member>, m: Member)
    requires forall i :: 0 <= i < |ms| ==> ms[i].key != m.key
    ensures Insert(ms, m) == ms + [m]
  {
    if |ms| > 0 {
      InsertFresh(ms[1..], m);
      assert [ms[0]] + (ms[1..] + [m]) == ms + [m];
    }
  }

  /** `dict(pairs)`: insert the parsed pairs from first to last. */
  function Dedup(ms: seq<Member>): (r: seq<Member>)
    ensures DistinctKeys(r)
    ensures forall x :: x in r ==> x in ms
  {
    if |ms| == 0 then [] else Insert(Dedup(ms[..|ms| - 1]), ms[|ms| - 1])
  }

  /** Pairs whose keys are already distinct make a dict in the same order. */
  lemma {:induction false} DedupDistinct(ms: seq<Member>)
    requires DistinctKeys(ms)
    ensures Dedup(ms) == ms
  {
    if |ms| > 0 {
      var init, last := ms[..|ms| - 1], ms[|ms| - 1];
      DistinctSplit(ms);
      DedupDistinct(init);
      DedupLast(ms);
      InsertFresh(init, last);
      SplitLast(ms);
    }
  }

  lemma SplitLast(ms: seq<Member>)
    requires |ms| > 0
    ensures ms == ms[..|ms| - 1] + [ms[|ms| - 1]]
  {
  }

  lemma DedupLast(ms: seq<Member>)
    requires |ms| > 0
    ensures Dedup(ms) == Insert(Dedup(ms[..|ms| - 1]), ms[|ms| - 1])
  {
  }

  lemma DistinctSplit(ms: seq<Member>)
    requires DistinctKeys(ms) && |ms| > 0
    ensures DistinctKeys(ms[..|ms| - 1])
    ensures forall i :: 0 <= i < |ms| - 1 ==> ms[i].key != ms[|ms| - 1].key
  {
  }

  function ParseValue(s: string): (r: Option<(Value, string)>)
    ensures r.Some? ==> |r.value.1| < |s|
    decreases |s|, 0
  {
    if |s| == 0 then None
    else if s[0] == '"' then
      match ParseChars(s[1..])
      case None => None
      case Some((str, rest)) => Some((Str(str), rest))
    else if s[0] == '[' then ParseArray(SkipWhitespace(s[1..]))
    else if s[0] == '{' then ParseObject(SkipWhitespace(s[1..]))
    else if s[0] == '-' || IsDigit(s[0]) then ParseNumber(s)
    else if |s| >= 4 && s[..4] == "null" then Some((Null, s[4..]))
    else if |s| >= 4 && s[..4] == "true" then Some((Bool(true), s[4..]))
    else if |s| >= 5 && s[..5] == "false" then Some((Bool(false), s[5..]))
    else None
  }

  /** An array after its `[` and any whitespace, up to and including its `]`. */
  function ParseArray(s: string): (r: Option<(Value, string)>)
    ensures r.Some? ==> |r.value.1| < |s|
    decreases |s|, 2
  {
    if |s| > 0 && s[0] == ']' then Some((Array([]), s[1..]))
    else
      match ParseItems(s)
      case None => None
      case Some((items, rest)) => Some((Array(items), rest))
  }

  /** One or more array items separated by commas, then the closing `]`. */
  function ParseItems(s: string): (r: Option<(seq<Value>, string)>)
    ensures r.Some? ==> |r.value.1| < |s|
    decreases |s|, 1
  {
    match ParseValue(s)
    case None => None
    case Some((v, after)) => ParseItemsAfter(v, after)
  }

  /** What follows an array item `v`: `,` and further items, or the closing `]`. */
  function ParseItemsAfter(v: Value, s: string): (r: Option<(seq<Value>, string)>)
    ensures r.Some? ==> |r.value.1| < |s|
    decreases |s|, 1
  {
    var rest := SkipWhitespace(s);
    if |rest| > 0 && rest[0] == ',' then
      match ParseItems(SkipWhitespace(rest[1..]))
      case None => None
      case Some((vs, rest')) =>
        Some(([v] + vs, rest'))
    else if |rest| > 0 && rest[0] == ']' then Some(([v], rest[1..]))
    else None
  }

  /** An object after its `{` and any whitespace, up to and including its `}`. */
  function ParseObject(s: string): (r: Option<(Value, string)>)
    ensures r.Some? ==> |r.value.1| < |s|
    decreases |s|, 2
  {
    if |s| > 0 && s[0] == '}' then Some((Object([]), s[1..]))
    else
      match ParseMembers(s)
      case None => None
      case Some((ms, rest)) => Some((Object(Dedup(ms)), rest))
  }

  /** One or more `"key": value` pairs separated by commas, then the closing `}`. */
  function ParseMembers(s: string): (r: Option<(seq<Member>, string)>)
    ensures r.Some? ==> |r.value.1| < |s|
    decreases |s|, 1
  {
    if |s| == 0 || s[0] != '"' then None
    else
      match ParseChars(s[1..])
      case None => None
      case Some((key, afterKey)) => ParseMemberValue(key, afterKey)
  }

  /** The `: value` after a key, then either `,` and further pairs or the closing `}`. */
  function ParseMemberValue(key: string, s: string): (r: Option<(seq<Member>, string)>)
    ensures r.Some? ==> |r.value.1| < |s|
    decreases |s|, 1
  {
    var colon := SkipWhitespace(s);
    if |colon| == 0 || colon[0] != ':' then None
    else
      match ParseValue(SkipWhitespace(colon[1..]))
      case None => None
      case Some((v, after)) => ParseMembersAfter(Member(key, v), after)
  }

  /** What follows a pair `m`: `,` and further pairs, or the closing `}`. */
  function ParseMembersAfter(m: Member, s: string): (r: Option<(seq<Member>, string)>)
    ensures r.Some? ==> |r.value.1| < |s|
    decreases |s|, 1
  {
    var rest := SkipWhitespace(s);
    if |rest| > 0 && rest[0] == ',' then
      match ParseMembers(SkipWhitespace(rest[1..]))
      case None => None
      case Some((ms, rest')) => Some(([m] + ms, rest'))
    else if |rest| > 0 && rest[0] == '}' then Some(([m], rest[1..]))
    else None
  }

  /** `json.loads(text)`: one value, optionally surrounded by whitespace, and nothing else. */
  function Decode(text: string): (r: Option<Value>)
  {
    match ParseValue(SkipWhitespace(text))
    case None => None
    case Some((v, rest)) => if SkipWhitespace(rest) == [] then Some(v) else None
  }
}
