/**
  The request/response middleware of powatools/apigateway.py: the
  `assert_GET_parameters` and `CORS_headers` decorators, the `wrap_apigateway`
  envelope and `parse_POST_body`. Python exceptions are values: a
  `RuntimeError(msg)`, or an exception of one of its subclasses, is
  `Failure(msg)`, the one kind the envelope catches; every other exception is
  a `Fault` that passes through it. Python's recursion limit, whose
  `RecursionError` is such a subclass, is not modelled.
 */
module ApiGateway {
  import opened Options
  import opened Json
  import opened DecimalEncoder
  import opened JsonEncode
  import JsonDecode
  import Base64
  import Utf8
  import JsonRoundTrip

  /** One key of the event dict: absent, present with `None`, or present with a value. */
  datatype Field<T> = Missing | IsNone | Present(value: T)

  /** The parts of an API Gateway proxy event the middleware reads. */
  datatype Event = Event(
    queryStringParameters: Field<map<string, string>>,
    body: Field<string>,
    isBase64Encoded: Field<bool>)

  /** The exceptions outside `RuntimeError` and its subclasses that the middleware raises or lets through. */
  datatype FaultKind =
    | KeyError
    | TypeError
    | ValueError
    | Base64Error
    | UnicodeDecodeError
    | JsonDecodeError
    | Raised(name: string)

  /** How a handler ends: a value, a `RuntimeError` (or a subclass of it) with its message, or another exception. */
  datatype Outcome = Ok(value: Value) | Failure(message: string) | Fault(kind: FaultKind)

  /** A handler called with the event (the Lambda context and keyword arguments are not modelled). */
  type Handler = Event -> Outcome

  /** The proxy response dict. */
  datatype Response = Response(statusCode: int, headers: map<string, string>, body: string)

  /** What the wrapped function does: return a response, or raise. */
  datatype Reply = Replied(response: Response) | Escaped(kind: FaultKind)

  type Endpoint = Event -> Reply

  // ---------------------------------------------------------------------------
  // assert_GET_parameters
  // ---------------------------------------------------------------------------

  /** The required names absent from the query map, in the configured order (recursion on the prefix). */
  function MissingParameters(ps: seq<string>, q: map<string, string>): (missing: seq<string>)
    ensures |missing| <= |ps|
  {
    if |ps| == 0 then []
    else
      var last := ps[|ps| - 1];
      MissingParameters(ps[..|ps| - 1], q) + (if last in q then [] else [last])
  }

  /** The `for parameter in parameters` loop, appending each absent name. */
  method CollectMissing(ps: seq<string>, q: map<string, string>) returns (missing: seq<string>)
    ensures missing == MissingParameters(ps, q)
  {
    missing := [];
    var i := 0;
    while i < |ps|
      invariant 0 <= i <= |ps|
      invariant missing == MissingParameters(ps[..i], q)
    {
      assert ps[..i + 1][..i] == ps[..i];
      if ps[i] !in q {
        missing := missing + [ps[i]];
      }
      i := i + 1;
    }
    assert ps[..|ps|] == ps;
  }

  /** `sep.join(xs)`. */
  function Join(sep: string, xs: seq<string>): (s: string)
  {
    if |xs| == 0 then ""
    else if |xs| == 1 then xs[0]
    else xs[0] + sep + Join(sep, xs[1..])
  }

  const QuerystringMessage := "event is missing querystring"

  function MissingMessage(missing: seq<string>): string
  {
    "event is missing " + Join(", ", missing) + " parameters"
  }

  /**
    The function `assert_GET_parameters(ps)` wraps around `h`, applied to an
    event. A `None` query map makes the membership test raise `TypeError`,
    but only once the loop has a name to test.
   */
  function CheckParameters(ps: seq<string>, h: Handler, e: Event): (r: Outcome)
    ensures e.queryStringParameters.Missing? ==> r == Failure(QuerystringMessage)
  {
    match e.queryStringParameters
    case Missing => Failure(QuerystringMessage)
    case IsNone => if |ps| == 0 then h(e) else Fault(TypeError)
    case Present(q) =>
      var missing := MissingParameters(ps, q);
      if missing != [] then Failure(MissingMessage(missing)) else h(e)
  }

  /** The decorator `assert_GET_parameters(parameters)`. */
  function AssertGetParameters(ps: seq<string>): (Handler -> Handler)
  {
    (h: Handler) => (e: Event) => CheckParameters(ps, h, e)
  }

  /**
    The check as its message means it: an event whose query map is `None`
    (API Gateway's form for a request without a query string) has no query
    map either, and fails with the same message instead of a `TypeError`.
   */
  function CheckParametersIntended(ps: seq<string>, h: Handler, e: Event): (r: Outcome)
    ensures !e.queryStringParameters.Present? ==> r == Failure(QuerystringMessage)
    ensures e.queryStringParameters.Present? ==> r == CheckParameters(ps, h, e)
  {
    match e.queryStringParameters
    case Present(q) =>
      var missing := MissingParameters(ps, q);
      if missing != [] then Failure(MissingMessage(missing)) else h(e)
    case _ => Failure(QuerystringMessage)
  }

  function AssertGetParametersIntended(ps: seq<string>): (Handler -> Handler)
  {
    (h: Handler) => (e: Event) => CheckParametersIntended(ps, h, e)
  }

  // ---------------------------------------------------------------------------
  // parse_POST_body
  // ---------------------------------------------------------------------------

  /** Python truthiness of the `isBase64Encoded` entry, where an absent key counts as false. */
  predicate Truthy(f: Field<bool>)
  {
    f.Present? && f.value
  }

  /** `json.loads(text)`. */
  function Loads(text: string): (r: Outcome)
    ensures !r.Failure?
    ensures r.Ok? <==> JsonDecode.Decode(text).Some?
  {
    match JsonDecode.Decode(text)
    case None => Fault(JsonDecodeError)
    case Some(v) => Ok(v)
  }

  /** `base64.b64decode(text).decode("utf-8")`, then `json.loads`. */
  function LoadsBase64(text: string): (r: Outcome)
    ensures !r.Failure?
  {
    match Base64.Decode(text)
    case NonAscii => Fault(ValueError)
    case Malformed => Fault(Base64Error)
    case Bytes(b) =>
      match Utf8.Decode(b)
      case None => Fault(UnicodeDecodeError)
      case Some(t) => Loads(t)
  }

  /**
    `parse_POST_body(event)`. None of its decoding errors is a `RuntimeError`,
    so a malformed body nested within the recursion limit is not turned into a
    400 by the envelope.
   */
  function ParsePostBody(e: Event): (r: Outcome)
    ensures !r.Failure?
    ensures e.body.Missing? ==> r == Fault(KeyError)
    ensures e.body.IsNone? ==> r == Fault(TypeError)
  {
    match e.body
    case Missing => Fault(KeyError)
    case IsNone => Fault(TypeError)
    case Present(text) => if Truthy(e.isBase64Encoded) then LoadsBase64(text) else Loads(text)
  }

  // ---------------------------------------------------------------------------
  // wrap_apigateway
  // ---------------------------------------------------------------------------

  const JsonHeaders := map["Content-Type" := "application/json"]
  const TextHeaders := map["Content-Type" := "text/plain"]

  /**
    The envelope around one handler outcome: a value is encoded into a 200
    response whose body decodes back to it, a `RuntimeError` becomes a 400
    with the message as the body, and anything else propagates. A value nested
    beyond Python's recursion limit, whose encoding raises `RecursionError`
    inside the `try`, is not modelled.
   */
  function Envelope(o: Outcome): (r: Reply)
    ensures o.Fault? <==> r.Escaped?
    ensures o.Fault? ==> r.kind == o.kind
    ensures o.Ok? ==> r.Replied? && r.response.statusCode == 200 && r.response.headers == JsonHeaders
    ensures o.Ok? && WellFormed(o.value) ==> JsonDecode.Decode(r.response.body) == Some(Normalize(o.value))
    ensures o.Failure? ==> r == Replied(Response(400, TextHeaders, o.message))
  {
    match o
    case Ok(v) =>
      assert WellFormed(v) ==> JsonDecode.Decode(Serialize(v)) == Some(Normalize(v)) by {
        if WellFormed(v) {
          JsonRoundTrip.DecodeSerialize(v);
        }
      }
      Replied(Response(200, JsonHeaders, Serialize(v)))
    case Failure(msg) => Replied(Response(400, TextHeaders, msg))
    case Fault(k) => Escaped(k)
  }

  /** The decorator `wrap_apigateway`. */
  function WrapApigateway(h: Handler): Endpoint
  {
    (e: Event) => Envelope(h(e))
  }

  // ---------------------------------------------------------------------------
  // CORS_headers
  // ---------------------------------------------------------------------------

  const AllowOrigin := "Access-Control-Allow-Origin"
  const AllowHeaders := "Access-Control-Allow-Headers"
  const AllowMethods := "Access-Control-Allow-Methods"
  const AllowedHeaders := "Content-Type,X-Amz-Date,Authorization,X-Api-Key,X-Amz-Security-Token,X-Amz-User-Agent"

  /** The three headers `CORS_headers(method)` merges into every response. */
  function CorsHeaders(httpMethod: string): map<string, string>
  {
    map[AllowOrigin := "*", AllowHeaders := AllowedHeaders, AllowMethods := "OPTIONS," + httpMethod]
  }

  /**
    `resp["headers"].update(...)`: the three CORS headers are set, every
    other header keeps its value, and status and body are untouched. A raised
    exception passes through without a response to update.
   */
  function AddCors(httpMethod: string, r: Reply): (c: Reply)
    ensures r.Escaped? <==> c.Escaped?
    ensures r.Escaped? ==> c == r
    ensures r.Replied? ==>
      var before := r.response;
      var after := c.response;
      after.statusCode == before.statusCode && after.body == before.body &&
      after.headers.Keys == before.headers.Keys + {AllowOrigin, AllowHeaders, AllowMethods} &&
      after.headers[AllowOrigin] == "*" &&
      after.headers[AllowHeaders] == AllowedHeaders &&
      after.headers[AllowMethods] == "OPTIONS," + httpMethod &&
      (forall k :: k in before.headers && k !in {AllowOrigin, AllowHeaders, AllowMethods} ==>
        after.headers[k] == before.headers[k])
  {
    match r
    case Escaped(_) => r
    case Replied(resp) => Replied(resp.(headers := resp.headers + CorsHeaders(httpMethod)))
  }

  /** The decorator `CORS_headers(method)`. */
  function CorsDecorator(httpMethod: string): (Endpoint -> Endpoint)
  {
    (f: Endpoint) => (e: Event) => AddCors(httpMethod, f(e))
  }

  /** The stack the middleware is meant for: `CORS_headers(m)(wrap_apigateway(assert_GET_parameters(ps)(h)))`. */
  function Stack(httpMethod: string, ps: seq<string>, h: Handler): Endpoint
  {
    CorsDecorator(httpMethod)(WrapApigateway(AssertGetParameters(ps)(h)))
  }

  /** The same stack over the corrected parameter check. */
  function StackIntended(httpMethod: string, ps: seq<string>, h: Handler): Endpoint
  {
    CorsDecorator(httpMethod)(WrapApigateway(AssertGetParametersIntended(ps)(h)))
  }
}
