/**
  What the middleware of powatools/apigateway.py promises, stated over the
  model: the missing-parameter report, the body parser's two paths, the
  envelope and the CORS merge, alone and stacked, and the four scenarios of
  tests/apigateway.py.
 */
module ApiGatewayLaws {
  import opened Options
  import opened Decimals
  import opened Json
  import opened DecimalEncoder
  import opened JsonEncode
  import JsonDecode
  import JsonRoundTrip
  import Base64
  import Utf8
  import opened ApiGateway

  // ---------------------------------------------------------------------------
  // The missing list
  // ---------------------------------------------------------------------------

  /** A name is reported missing exactly when it is required and absent from the query map. */
  lemma {:induction false} MissingMembership(ps: seq<string>, q: map<string, string>)
    ensures forall p :: p in MissingParameters(ps, q) <==> p in ps && p !in q
  {
    if |ps| > 0 {
      var init := ps[..|ps| - 1];
      MissingMembership(init, q);
      assert ps == init + [ps[|ps| - 1]];
    }
  }

  /** Nothing is reported exactly when every required name is in the query map. */
  lemma {:induction false} NoneMissing(ps: seq<string>, q: map<string, string>)
    ensures MissingParameters(ps, q) == [] <==> forall i :: 0 <= i < |ps| ==> ps[i] in q
  {
    if |ps| > 0 {
      var init := ps[..|ps| - 1];
      NoneMissing(init, q);
      assert forall i :: 0 <= i < |init| ==> init[i] == ps[i];
    }
  }

  /** A name is reported as often as it is required, unless the query map holds it. */
  lemma {:induction false} MissingCount(ps: seq<string>, q: map<string, string>)
    ensures forall p :: multiset(MissingParameters(ps, q))[p] == if p in q then 0 else multiset(ps)[p]
  {
    if |ps| > 0 {
      var init := ps[..|ps| - 1];
      MissingCount(init, q);
      assert ps == init + [ps[|ps| - 1]];
    }
  }

  /** `a` is `b` with some elements left out, the rest in their order. */
  predicate IsSubsequence(a: seq<string>, b: seq<string>)
    decreases |b|
  {
    if |a| == 0 then true
    else if |b| == 0 then false
    else if a[|a| - 1] == b[|b| - 1] then IsSubsequence(a[..|a| - 1], b[..|b| - 1])
    else IsSubsequence(a, b[..|b| - 1])
  }

  /** The missing names keep the configured order. */
  lemma {:induction false} MissingInOrder(ps: seq<string>, q: map<string, string>)
    ensures IsSubsequence(MissingParameters(ps, q), ps)
  {
    if |ps| > 0 {
      var init := ps[..|ps| - 1];
      var last := ps[|ps| - 1];
      var m := MissingParameters(ps, q);
      MissingInOrder(init, q);
      if last in q {
        assert m == MissingParameters(init, q);
        SubsequenceExtend(m, init, last);
      } else {
        assert m[..|m| - 1] == MissingParameters(init, q);
      }
    }
  }

  /** A subsequence of a list stays one when the list grows at the end. */
  lemma {:induction false} SubsequenceExtend(a: seq<string>, b: seq<string>, x: string)
    requires IsSubsequence(a, b)
    ensures IsSubsequence(a, b + [x])
    decreases |b|, 1
  {
    if |a| > 0 {
      assert (b + [x])[..|b|] == b;
      if a[|a| - 1] == x {
        SubsequenceShrink(a[..|a| - 1], a, b);
      }
    }
  }

  /** Dropping the last element of a subsequence leaves a subsequence. */
  lemma {:induction false} SubsequenceShrink(a': seq<string>, a: seq<string>, b: seq<string>)
    requires |a| > 0 && a' == a[..|a| - 1] && IsSubsequence(a, b)
    ensures IsSubsequence(a', b)
    decreases |b|, 0
  {
    if |a'| > 0 && |b| > 0 {
      var b' := b[..|b| - 1];
      if a[|a| - 1] == b[|b| - 1] {
        assert IsSubsequence(a', b');
        SubsequenceExtend(a', b', b[|b| - 1]);
        assert b' + [b[|b| - 1]] == b;
      } else {
        SubsequenceShrink(a', a, b');
        SubsequenceExtend(a', b', b[|b| - 1]);
        assert b' + [b[|b| - 1]] == b;
      }
    }
  }

  // ---------------------------------------------------------------------------
  // The failure message
  // ---------------------------------------------------------------------------

  /** The position of the first comma of `s`, or `|s|` when there is none. */
  function FirstComma(s: string): (i: nat)
    ensures i <= |s| && (i < |s| ==> s[i] == ',')
    ensures forall j :: 0 <= j < i ==> s[j] != ','
  {
    if |s| == 0 then 0
    else if s[0] == ',' then 0
    else 1 + FirstComma(s[1..])
  }

  /** `s.split(", ")` for text whose commas are all followed by a space. */
  function SplitNames(s: string): (r: seq<string>)
    ensures |r| >= 1
    decreases |s|
  {
    var i := FirstComma(s);
    if i + 2 <= |s| then [s[..i]] + SplitNames(s[i + 2..]) else [s]
  }

  predicate NoComma(x: string)
  {
    forall j :: 0 <= j < |x| ==> x[j] != ','
  }

  lemma FirstCommaOf(x: string, t: string)
    requires NoComma(x)
    ensures FirstComma(x + t) == |x| + FirstComma(t)
    decreases |x|
  {
    if |x| > 0 {
      assert x[0] != ',';
      assert (x + t)[0] == x[0];
      assert (x + t)[1..] == x[1..] + t;
      FirstCommaOf(x[1..], t);
    } else {
      assert x + t == t;
    }
  }

  /** A name without commas splits to itself. */
  lemma SplitOne(x: string)
    requires NoComma(x)
    ensures SplitNames(x) == [x]
  {
    FirstCommaOf(x, "");
    assert x + "" == x;
  }

  /** A name without commas, then ", ", splits off as the first name. */
  lemma SplitFirst(x: string, t: string)
    requires NoComma(x)
    ensures SplitNames(x + ", " + t) == [x] + SplitNames(t)
  {
    var s := x + ", " + t;
    assert s == x + (", " + t);
    FirstCommaOf(x, ", " + t);
    assert s[..|x|] == x && s[|x| + 2..] == t;
  }

  /** For names without commas, the names can be read back from the joined list. */
  lemma {:induction false} SplitJoin(names: seq<string>)
    requires |names| >= 1
    requires forall i :: 0 <= i < |names| ==> NoComma(names[i])
    ensures SplitNames(Join(", ", names)) == names
  {
    if |names| == 1 {
      SplitOne(names[0]);
    } else {
      SplitFirst(names[0], Join(", ", names[1..]));
      SplitJoin(names[1..]);
      assert names == [names[0]] + names[1..];
    }
  }

  /** The failure message names the missing parameters, and only those, in order. */
  lemma MissingMessageNames(ps: seq<string>, q: map<string, string>)
    requires MissingParameters(ps, q) != []
    requires forall i :: 0 <= i < |ps| ==> NoComma(ps[i])
    ensures var m := MissingMessage(MissingParameters(ps, q));
      var prefix := "event is missing ";
      var suffix := " parameters";
      |m| >= |prefix| + |suffix| && m[..|prefix|] == prefix && m[|m| - |suffix|..] == suffix &&
      SplitNames(m[|prefix|..|m| - |suffix|]) == MissingParameters(ps, q)
  {
    var missing := MissingParameters(ps, q);
    MissingMembership(ps, q);
    forall i | 0 <= i < |missing| ensures NoComma(missing[i]) {
      assert missing[i] in missing;
      var j :| 0 <= j < |ps| && ps[j] == missing[i];
    }
    SplitJoin(missing);
    var joined := Join(", ", missing);
    var m := MissingMessage(missing);
    assert m == "event is missing " + joined + " parameters";
    assert m[17..|m| - 11] == joined;
  }

  // ---------------------------------------------------------------------------
  // assert_GET_parameters
  // ---------------------------------------------------------------------------

  /** Without a query map the decorator fails at once, whatever the handler would have done. */
  lemma QuerystringRequired(ps: seq<string>, h1: Handler, h2: Handler, e: Event)
    requires e.queryStringParameters.Missing?
    ensures AssertGetParameters(ps)(h1)(e) == AssertGetParameters(ps)(h2)(e) == Failure(QuerystringMessage)
  {
    assert AssertGetParameters(ps)(h1)(e) == CheckParameters(ps, h1, e);
    assert AssertGetParameters(ps)(h2)(e) == CheckParameters(ps, h2, e);
  }

  /** With every required name present, the handler's own outcome for the same event comes back. */
  lemma ParametersPresent(ps: seq<string>, h: Handler, e: Event)
    requires e.queryStringParameters.Present?
    requires forall i :: 0 <= i < |ps| ==> ps[i] in e.queryStringParameters.value
    ensures AssertGetParameters(ps)(h)(e) == h(e)
  {
    NoneMissing(ps, e.queryStringParameters.value);
    assert AssertGetParameters(ps)(h)(e) == CheckParameters(ps, h, e);
  }

  lemma SomeMissing(ps: seq<string>, q: map<string, string>, i: nat)
    requires i < |ps| && ps[i] !in q
    ensures MissingParameters(ps, q) != []
  {
    NoneMissing(ps, q);
  }

  /** With a required name absent, the decorator fails with the report, whatever the handler. */
  lemma ParametersAbsent(ps: seq<string>, h1: Handler, h2: Handler, e: Event, i: nat)
    requires e.queryStringParameters.Present?
    requires i < |ps| && ps[i] !in e.queryStringParameters.value
    ensures var r := AssertGetParameters(ps)(h1)(e);
      r == AssertGetParameters(ps)(h2)(e) &&
      r == Failure(MissingMessage(MissingParameters(ps, e.queryStringParameters.value)))
  {
    var q := e.queryStringParameters.value;
    SomeMissing(ps, q, i);
    CheckAbsent(ps, h1, e);
    CheckAbsent(ps, h2, e);
    assert AssertGetParameters(ps)(h1)(e) == CheckParameters(ps, h1, e);
    assert AssertGetParameters(ps)(h2)(e) == CheckParameters(ps, h2, e);
  }

  lemma CheckAbsent(ps: seq<string>, h: Handler, e: Event)
    requires e.queryStringParameters.Present?
    requires MissingParameters(ps, e.queryStringParameters.value) != []
    ensures CheckParameters(ps, h, e) == Failure(MissingMessage(MissingParameters(ps, e.queryStringParameters.value)))
  {
    match e.queryStringParameters
    case Present(q) =>
      var missing := MissingParameters(ps, q);
      assert CheckParameters(ps, h, e) == Failure(MissingMessage(missing));
  }

  // ---------------------------------------------------------------------------
  // parse_POST_body
  // ---------------------------------------------------------------------------

  /** A base64 body is read as the text it encodes would be read directly. */
  lemma Base64Transparent(q: Field<map<string, string>>, text: string)
    ensures ParsePostBody(Event(q, Present(Base64.Encode(Utf8.Encode(text))), Present(true))) ==
      ParsePostBody(Event(q, Present(text), Missing))
  {
    Base64.DecodeEncode(Utf8.Encode(text));
    Utf8.DecodeEncode(text);
  }

  /** A body holding the encoding of a value parses back to that value as a consumer holds it. */
  lemma PlainBodyRoundTrip(q: Field<map<string, string>>, flag: Field<bool>, v: Value)
    requires WellFormed(v) && !Truthy(flag)
    ensures ParsePostBody(Event(q, Present(Serialize(v)), flag)) == Ok(Normalize(v))
  {
    JsonRoundTrip.DecodeSerialize(v);
  }

  /** The same holds when the body is base64-encoded and flagged so. */
  lemma Base64BodyRoundTrip(q: Field<map<string, string>>, v: Value)
    requires WellFormed(v)
    ensures ParsePostBody(Event(q, Present(Base64.Encode(Utf8.Encode(Serialize(v)))), Present(true))) == Ok(Normalize(v))
  {
    Base64Transparent(q, Serialize(v));
    PlainBodyRoundTrip(q, Missing, v);
  }

  // ---------------------------------------------------------------------------
  // The encoder
  // ---------------------------------------------------------------------------

  /** Equal bodies come from values a consumer cannot tell apart. */
  lemma SerializeInjective(a: Value, b: Value)
    requires WellFormed(a) && WellFormed(b)
    requires Serialize(a) == Serialize(b)
    ensures Normalize(a) == Normalize(b)
  {
    JsonRoundTrip.DecodeSerialize(a);
    JsonRoundTrip.DecodeSerialize(b);
  }

  /**
    A decimal is written as a number token: one that reads back as an `int`
    of the same value when the decimal is whole, as a `float` of the same
    value otherwise.
   */
  lemma DecimalToken(d: Decimal)
    ensures var r := JsonDecode.Decode(Serialize(Dec(d)));
      r.Some? && (r.value.Int? <==> IsIntegral(d)) && (r.value.Int? || r.value.Float?) &&
      (r.value.Int? ==> r.value.i as real == RealValue(d)) &&
      (r.value.Float? ==> RealValue(r.value.f) == RealValue(d))
  {
    JsonRoundTrip.DecodeSerialize(Dec(d));
    IntegralIff(d);
  }

  // ---------------------------------------------------------------------------
  // wrap_apigateway and CORS_headers, stacked
  // ---------------------------------------------------------------------------

  /** Some position of `s` starts a copy of `t`: Python's `t in s`. */
  predicate Contains(s: string, t: string)
  {
    exists i :: 0 <= i <= |s| && t <= s[i..]
  }

  /** The Allow-Methods header names the declared method, and the content type survives, on every response. */
  lemma CorsNamesMethod(httpMethod: string, r: Reply)
    requires r.Replied? && "Content-Type" in r.response.headers
    ensures var c := AddCors(httpMethod, r);
      c.Replied? && AllowMethods in c.response.headers &&
      Contains(c.response.headers[AllowMethods], httpMethod) &&
      "Content-Type" in c.response.headers &&
      c.response.headers["Content-Type"] == r.response.headers["Content-Type"]
  {
    var c := AddCors(httpMethod, r);
    var v := c.response.headers[AllowMethods];
    assert v == "OPTIONS," + httpMethod;
    assert v[8..] == httpMethod;
  }

  /** The stack applied to an event is the three layers applied in turn. */
  lemma StackApply(httpMethod: string, ps: seq<string>, h: Handler, e: Event)
    ensures Stack(httpMethod, ps, h)(e) == AddCors(httpMethod, Envelope(CheckParameters(ps, h, e)))
  {
    var checked := AssertGetParameters(ps)(h);
    assert checked(e) == CheckParameters(ps, h, e);
    var wrapped := WrapApigateway(checked);
    assert wrapped(e) == Envelope(checked(e));
    assert CorsDecorator(httpMethod)(wrapped)(e) == AddCors(httpMethod, wrapped(e));
  }

  /** The stack without a query map: a 400 with the fixed message, the text type and the CORS headers. */
  lemma StackWithoutQuerystring(httpMethod: string, ps: seq<string>, h: Handler, e: Event)
    requires e.queryStringParameters.Missing?
    ensures Stack(httpMethod, ps, h)(e) ==
      Replied(Response(400, TextHeaders + CorsHeaders(httpMethod), QuerystringMessage))
  {
    StackApply(httpMethod, ps, h, e);
  }

  /** The stack with a required name absent: a 400 carrying the report. */
  lemma StackWithMissing(httpMethod: string, ps: seq<string>, h: Handler, e: Event, i: nat)
    requires e.queryStringParameters.Present?
    requires i < |ps| && ps[i] !in e.queryStringParameters.value
    ensures Stack(httpMethod, ps, h)(e) ==
      Replied(Response(400, TextHeaders + CorsHeaders(httpMethod),
        MissingMessage(MissingParameters(ps, e.queryStringParameters.value))))
  {
    StackApply(httpMethod, ps, h, e);
    ParametersAbsent(ps, h, h, e, i);
  }

  /** The stack with every required name present: the handler's outcome, enveloped and given the CORS headers. */
  lemma StackPassing(httpMethod: string, ps: seq<string>, h: Handler, e: Event)
    requires e.queryStringParameters.Present?
    requires forall i :: 0 <= i < |ps| ==> ps[i] in e.queryStringParameters.value
    ensures var r := Stack(httpMethod, ps, h)(e);
      (h(e).Fault? ==> r == Escaped(h(e).kind)) &&
      (h(e).Failure? ==> r == Replied(Response(400, TextHeaders + CorsHeaders(httpMethod), h(e).message))) &&
      (h(e).Ok? ==>
        r.Replied? && r.response.statusCode == 200 &&
        r.response.headers == JsonHeaders + CorsHeaders(httpMethod) &&
        (WellFormed(h(e).value) ==> JsonDecode.Decode(r.response.body) == Some(Normalize(h(e).value))))
  {
    StackApply(httpMethod, ps, h, e);
    ParametersPresent(ps, h, e);
    assert AssertGetParameters(ps)(h)(e) == CheckParameters(ps, h, e);
  }

  // ---------------------------------------------------------------------------
  // A query map of `None`
  // ---------------------------------------------------------------------------

  /**
    As written: an event without a query string, in the form API Gateway
    sends it, makes the stack raise `TypeError` instead of answering 400.
   */
  lemma NullQueryEscapes(httpMethod: string, ps: seq<string>, h: Handler, body: Field<string>, flag: Field<bool>)
    requires |ps| > 0
    ensures Stack(httpMethod, ps, h)(Event(IsNone, body, flag)) == Escaped(TypeError)
  {
    StackApply(httpMethod, ps, h, Event(IsNone, body, flag));
  }

  /** Corrected: every event without a query map, absent or `None`, is answered 400 with the fixed message. */
  lemma IntendedQuerystringRequired(httpMethod: string, ps: seq<string>, h: Handler, e: Event)
    requires !e.queryStringParameters.Present?
    ensures StackIntended(httpMethod, ps, h)(e) ==
      Replied(Response(400, TextHeaders + CorsHeaders(httpMethod), QuerystringMessage))
  {
    var checked := AssertGetParametersIntended(ps)(h);
    assert checked(e) == CheckParametersIntended(ps, h, e);
    var wrapped := WrapApigateway(checked);
    assert wrapped(e) == Envelope(checked(e));
    assert CorsDecorator(httpMethod)(wrapped)(e) == AddCors(httpMethod, wrapped(e));
  }

  /** Corrected: on events with a query map the two stacks agree. */
  lemma IntendedAgrees(httpMethod: string, ps: seq<string>, h: Handler, e: Event)
    requires e.queryStringParameters.Present?
    ensures StackIntended(httpMethod, ps, h)(e) == Stack(httpMethod, ps, h)(e)
  {
    StackApply(httpMethod, ps, h, e);
    var checked := AssertGetParametersIntended(ps)(h);
    assert checked(e) == CheckParametersIntended(ps, h, e);
    var wrapped := WrapApigateway(checked);
    assert wrapped(e) == Envelope(checked(e));
    assert CorsDecorator(httpMethod)(wrapped)(e) == AddCors(httpMethod, wrapped(e));
  }

  // ---------------------------------------------------------------------------
  // The scenarios of tests/apigateway.py
  // ---------------------------------------------------------------------------

  /** A handler returning a value a client reads as it is: a 200 with the JSON type whose body reads back as the value. */
  lemma WrapReturning(h: Handler, e: Event, v: Value)
    requires h(e) == Ok(v) && WellFormed(v)
    ensures var r := WrapApigateway(h)(e);
      r.Replied? && r.response.statusCode == 200 && r.response.headers == JsonHeaders &&
      JsonDecode.Decode(r.response.body) == Some(Normalize(v))
  {
    assert WrapApigateway(h)(e) == Envelope(h(e));
  }

  /** The event `{}` the tests call the handlers with. */
  const EmptyEvent := Event(Missing, Missing, Missing)

  const HelloWorld := Object([Member("hello", Str("world"))])

  function ReturnHelloWorld(e: Event): Outcome
  {
    Ok(HelloWorld)
  }

  function RaiseOops(e: Event): Outcome
  {
    Failure("oops")
  }

  /** The dict needs no normalising: a consumer reads it as it is. */
  lemma HelloWorldPlain()
    ensures WellFormed(HelloWorld) && Normalize(HelloWorld) == HelloWorld
  {
    assert DistinctKeys(HelloWorld.members);
    assert IsPlain(HelloWorld) by {
      assert IsPlain(HelloWorld.members[0].value);
    }
    NormalizeFixesPlain(HelloWorld);
  }

  /** A handler returning `{"hello": "world"}`: 200, JSON, and the body reads back as that dict. */
  lemma HelloWorldReply()
    ensures var r := WrapApigateway(ReturnHelloWorld)(EmptyEvent);
      r.Replied? && r.response.statusCode == 200 &&
      "Content-Type" in r.response.headers && r.response.headers["Content-Type"] == "application/json" &&
      JsonDecode.Decode(r.response.body) == Some(HelloWorld)
  {
    HelloWorldPlain();
    WrapReturning(ReturnHelloWorld, EmptyEvent, HelloWorld);
  }

  /** A handler raising `RuntimeError("oops")`: 400, plain text, and the body is the message itself. */
  lemma OopsReply()
    ensures var r := WrapApigateway(RaiseOops)(EmptyEvent);
      r.Replied? && r.response.statusCode == 400 &&
      "Content-Type" in r.response.headers && r.response.headers["Content-Type"] == "text/plain" &&
      r.response.body == "oops"
  {
    assert WrapApigateway(RaiseOops)(EmptyEvent) == Envelope(RaiseOops(EmptyEvent));
  }

  /** `CORS_headers("GET")` over the hello-world handler: both headers are there and the method is named. */
  lemma CorsGetReply()
    ensures var r := CorsDecorator("GET")(WrapApigateway(ReturnHelloWorld))(EmptyEvent);
      r.Replied? && "Content-Type" in r.response.headers && AllowMethods in r.response.headers &&
      Contains(r.response.headers[AllowMethods], "GET")
  {
    var wrapped := WrapApigateway(ReturnHelloWorld);
    assert wrapped(EmptyEvent) == Envelope(ReturnHelloWorld(EmptyEvent));
    assert CorsDecorator("GET")(wrapped)(EmptyEvent) == AddCors("GET", wrapped(EmptyEvent));
    CorsNamesMethod("GET", wrapped(EmptyEvent));
  }

  const DecimalDict := Object([Member("int", Dec(Decimal(1, 0))), Member("float", Dec(Decimal(11, -1)))])

  function ReturnDecimals(e: Event): Outcome
  {
    Ok(DecimalDict)
  }

  /** `{"int": Decimal("1"), "float": Decimal("1.1")}` reads back as an `int` 1 and a `float` 1.1. */
  lemma DecimalReply()
    ensures var r := WrapApigateway(ReturnDecimals)(EmptyEvent);
      r.Replied? && r.response.statusCode == 200 &&
      JsonDecode.Decode(r.response.body) == Some(DecimalDictRead)
  {
    assert WellFormed(DecimalDict) by {
      assert DistinctKeys(DecimalDict.members);
    }
    NormalizeDecimalDict();
    WrapReturning(ReturnDecimals, EmptyEvent, DecimalDict);
  }

  /** What a consumer reads: `{"int": 1, "float": 1.1}`. */
  const DecimalDictRead := Object([Member("int", Int(1)), Member("float", Float(Decimal(11, -1)))])

  lemma NormalizeDecimalDict()
    ensures Normalize(DecimalDict) == DecimalDictRead
  {
    var one := Decimal(1, 0);
    var oneOne := Decimal(11, -1);
    assert Default(one) == Int(1) by {
      assert IsIntegral(one) && Pow10(0) == 1;
    }
    assert Normalize(Dec(oneOne)) == Float(oneOne) by {
      assert Pow10(1) == 10;
      assert !IsIntegral(oneOne);
      CanonicalFixesCanonical(oneOne);
    }
    var ms := DecimalDict.members;
    assert NormalizeMembers(ms[1..]) == [Member("float", Float(oneOne))] by {
      assert ms[1..][1..] == [];
    }
  }
}
