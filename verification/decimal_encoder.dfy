/**
  `DecimalEncoder.default` of powatools/apigateway.py: the hook `json.dumps`
  calls for a `decimal.Decimal` leaf, and what a JSON consumer reads back
  for every value the encoder writes.
 */
module DecimalEncoder {
  import opened Decimals
  import opened Json

  /**
    A whole-valued decimal becomes an `int`, any other becomes a `float` of
    the same value (the float conversion is modelled exactly).
   */
  function Default(d: Decimal): (v: Value)
    ensures v.Int? || v.Float?
    ensures v.Int? <==> RealValue(d).Floor as real == RealValue(d)
    ensures v.Int? ==> v.i as real == RealValue(d)
    ensures v.Float? ==> RealValue(v.f) == RealValue(d)
  {
    IntegralIff(d);
    if IsIntegral(d) then Int(IntegerValue(d)) else Float(d)
  }

  /**
    The value a consumer of the encoded text holds: decimals replaced by what
    `Default` makes of them and floats in canonical form; keys and order kept.
   */
  function Normalize(v: Value): (r: Value)
    ensures IsPlain(r)
    ensures WellFormed(v) ==> WellFormed(r)
  {
    match v
    case Float(f) => Float(Canonical(f))
    case Dec(d) =>
      var n := Default(d);
      if n.Int? then n else Float(Canonical(n.f))
    case Array(items) => Array(NormalizeItems(items))
    case Object(ms) =>
      var r := NormalizeMembers(ms);
      assert DistinctKeys(ms) ==> DistinctKeys(r);
      Object(r)
    case _ => v
  }

  function NormalizeItems(items: seq<Value>): (r: seq<Value>)
    ensures |r| == |items| && AllPlain(r)
    ensures AllWellFormed(items) ==> AllWellFormed(r)
  {
    if |items| == 0 then []
    else
      var r := [Normalize(items[0])] + NormalizeItems(items[1..]);
      assert r[1..] == NormalizeItems(items[1..]);
      r
  }

  function NormalizeMembers(ms: seq<Member>): (r: seq<Member>)
    ensures |r| == |ms| && MembersPlain(r)
    ensures forall i :: 0 <= i < |ms| ==> r[i].key == ms[i].key
    ensures MembersWellFormed(ms) ==> MembersWellFormed(r)
  {
    if |ms| == 0 then []
    else
      var r := [Member(ms[0].key, Normalize(ms[0].value))] + NormalizeMembers(ms[1..]);
      assert r[1..] == NormalizeMembers(ms[1..]);
      r
  }

  /** Normalising leaves a value that already is plain unchanged. */
  lemma {:induction false} NormalizeFixesPlain(v: Value)
    requires IsPlain(v)
    ensures Normalize(v) == v
    decreases v, 0
  {
    match v
    case Float(f) => CanonicalFixesCanonical(f);
    case Array(items) => NormalizeItemsFixesPlain(items);
    case Object(ms) => NormalizeMembersFixesPlain(ms);
    case _ =>
  }

  lemma {:induction false} NormalizeItemsFixesPlain(items: seq<Value>)
    requires AllPlain(items)
    ensures NormalizeItems(items) == items
    decreases items
  {
    if |items| > 0 {
      NormalizeFixesPlain(items[0]);
      NormalizeItemsFixesPlain(items[1..]);
    }
  }

  lemma {:induction false} NormalizeMembersFixesPlain(ms: seq<Member>)
    requires MembersPlain(ms)
    ensures NormalizeMembers(ms) == ms
    decreases ms
  {
    if |ms| > 0 {
      NormalizeFixesPlain(ms[0].value);
      NormalizeMembersFixesPlain(ms[1..]);
    }
  }
}
