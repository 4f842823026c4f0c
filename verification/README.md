# powatools API Gateway middleware, modelled in Dafny

`powatools/apigateway.py` is a small helper layer for AWS Lambda functions behind
API Gateway's proxy integration. It has four parts:

- `assert_GET_parameters(parameters)` rejects an event that lacks the query map or any required query parameter. It raises a `RuntimeError` in that case: "event is missing querystring" for an absent query map, or a message listing the absent names.
- `parse_POST_body(event)` reads the JSON body. It base64-decodes the body first when the event is flagged `isBase64Encoded`.
- `wrap_apigateway(fn)` turns the handler's return value into a 200 response with a JSON body. The body is written with `DecimalEncoder`, which turns a `decimal.Decimal` into an `int` or a `float`. A `RuntimeError` becomes a 400 with the message as a plain-text body.
- `CORS_headers(method)` merges three `Access-Control-*` headers into the response.

The model works as follows:

- Exceptions are values. A handler ends in `Ok(value)` or `Failure(message)`. `Failure` stands for a `RuntimeError` or any subclass of it (`NotImplementedError`, `RecursionError`), since `except RuntimeError` catches them all. Any other exception is a `Fault(kind)`, which the envelope lets through as `Escaped(kind)`.
- Decorators are higher-order functions over `Event -> Outcome`.
- The JSON text is produced and parsed by a real serializer (`JsonEncode`) and parser (`JsonDecode`). What the handler returns is therefore tied to what a client reads back by a proved round trip, not an assumed one.
- `base64.b64decode` is modelled as the non-validating decoder loop of Python's `binascii` (`Base64`).
- `bytes.decode("utf-8")` is modelled as the strict UTF-8 decoder (`Utf8`). Each has an encoder as its partner.
- Decimals and floats are exact decimals (`Decimals`).

Modules:

| file | module | contents |
|---|---|---|
| options.dfy | `Options` | `Option` |
| bytes.dfy | `Bytes` | `Byte` |
| decimals.dfy | `Decimals` | exact decimals, integrality, the canonical fraction form |
| digits.dfy | `Digits` | decimal and hex digit strings |
| json.dfy | `Json` | the value tree a handler returns and `json.loads` builds |
| decimal_encoder.dfy | `DecimalEncoder` | `DecimalEncoder.default`, and what a client reads back (`Normalize`) |
| json_encode.dfy | `JsonEncode` | `json.dumps` |
| json_decode.dfy | `JsonDecode` | `json.loads` |
| json_roundtrip.dfy | `JsonRoundTrip` | `json.loads(json.dumps(v))` is `v` as a client holds it |
| base64.dfy | `Base64` | `base64.b64decode` and its encoder partner |
| utf8.dfy | `Utf8` | strict UTF-8 decoding and encoding |
| apigateway.dfy | `ApiGateway` | the four decorators and helpers, and the stack they form |
| apigateway_laws.dfy | `ApiGatewayLaws` | properties of the middleware, and the four scenarios of `tests/apigateway.py` |

Some behaviour of the code worth knowing:

- The failure message for absent parameters is `event is missing a, b parameters`: the absent names joined by ", " between a fixed prefix and suffix.
- A body that cannot be decoded is not reported with a message of its own. `KeyError`, `binascii.Error`, `UnicodeDecodeError` and `JSONDecodeError` escape the envelope as they are. None of them is a `RuntimeError`, so none becomes a 400.
- Parameters are only checked for presence. Their values are not validated.

## Model

| member | source | states |
|---|---|---|
| DecimalEncoder.Default | powatools/apigateway.py:7-12 | a decimal becomes an `int` exactly when its value is whole, and the `int` or `float` has the decimal's value |
| Decimals.IntegralIff | powatools/apigateway.py:8-9 | the integrality test on the decimal's digits agrees with `is_integer()` on its value |
| Decimals.CanonicalOfSameValue | powatools/apigateway.py:12 | the printed form of a float depends only on its value |
| Decimals.CanonicalFixesCanonical | powatools/apigateway.py:12 | a float already in printed form is left as it is |
| DecimalEncoder.Normalize | powatools/apigateway.py:5-12 | what a client reads back has no decimal left and all floats canonical, and keeps dicts' keys distinct |
| DecimalEncoder.NormalizeFixesPlain | powatools/apigateway.py:56-58 | a value with no decimals and only canonical floats is read back unchanged |
| ApiGateway.MissingParameters | powatools/apigateway.py:20-23 | the absent names are never more than the required ones |
| ApiGateway.CollectMissing | powatools/apigateway.py:20-23 | the loop that appends each absent name builds exactly the absent-name list |
| ApiGatewayLaws.MissingMembership | powatools/apigateway.py:21-23 | a name is reported exactly when it is required and not in the query map |
| ApiGatewayLaws.NoneMissing | powatools/apigateway.py:24 | the report is empty exactly when every required name is in the query map |
| ApiGatewayLaws.MissingCount | powatools/apigateway.py:21-23 | a name absent from the query map is reported as many times as it is required, and a present one never |
| ApiGatewayLaws.MissingInOrder | powatools/apigateway.py:21-23 | the report keeps the configured order |
| ApiGatewayLaws.SplitJoin | powatools/apigateway.py:25 | names joined with ", " can be split back, so the message loses no name |
| ApiGatewayLaws.MissingMessageNames | powatools/apigateway.py:24-25 | the failure message is "event is missing " + the absent names in order + " parameters" |
| ApiGateway.CheckParameters | powatools/apigateway.py:18-19 | an event without the query-map key fails with "event is missing querystring" |
| ApiGatewayLaws.QuerystringRequired | powatools/apigateway.py:18-19 | without the query-map key the decorator fails whatever the handler, which is never consulted |
| ApiGatewayLaws.ParametersPresent | powatools/apigateway.py:24-26 | with every required name present the handler's own outcome on the same event comes back |
| ApiGatewayLaws.ParametersAbsent | powatools/apigateway.py:24-25 | with any required name absent the decorator fails with the report, whatever the handler |
| ApiGateway.Loads | powatools/apigateway.py:35 | `json.loads` succeeds exactly when the text parses, and within the recursion limit it never raises a `RuntimeError` |
| ApiGateway.LoadsBase64 | powatools/apigateway.py:32-35 | within the recursion limit, no stage of the base64 path raises a `RuntimeError` |
| ApiGateway.ParsePostBody | powatools/apigateway.py:30-35 | an absent body raises `KeyError` and a `None` body `TypeError`; within the recursion limit no `RuntimeError` is raised |
| ApiGatewayLaws.Base64Transparent | powatools/apigateway.py:32-34 | a base64 body is read exactly as the text it encodes would be read unflagged |
| ApiGatewayLaws.PlainBodyRoundTrip | powatools/apigateway.py:31-35 | a body holding the encoding of a value parses to that value as a client holds it |
| ApiGatewayLaws.Base64BodyRoundTrip | powatools/apigateway.py:32-35 | the same for a base64-encoded, flagged body |
| Base64.AlphabetValue | powatools/apigateway.py:34 | the alphabet of the decoder is exactly `A-Z a-z 0-9 + /` |
| Base64.Decode | powatools/apigateway.py:34 | a text argument is rejected with `ValueError` exactly when it is not ASCII |
| Base64.Encode | powatools/apigateway.py:34 | the padded encoding has four characters per started group of three bytes |
| Base64.EncodeAscii | powatools/apigateway.py:34 | the encoding uses only alphabet characters and `=` |
| Base64.RunEncode | powatools/apigateway.py:34 | the decoder loop reads an encoding back byte for byte, ending at the padding or at the text's end |
| Base64.DecodeEncode | powatools/apigateway.py:34 | `b64decode` inverts the padded encoding |
| Base64.DecodeSkips | powatools/apigateway.py:34 | an ASCII character outside the alphabet and not `=` is ignored wherever it stands |
| Utf8.DecodeChar | powatools/apigateway.py:34 | a character read from well-formed UTF-8 takes between one and four bytes that are present |
| Utf8.DecodeEncode | powatools/apigateway.py:34 | `decode("utf-8")` inverts `encode("utf-8")` |
| Utf8.EncodeDecode | powatools/apigateway.py:34 | whatever decodes is the encoding of its result: the decoder accepts no overlong or other second spelling |
| Utf8.EncodeDecodeChar | powatools/apigateway.py:34 | one decoded character is read from exactly its shortest encoding |
| JsonDecode.Insert | powatools/apigateway.py:35 | the assigned member is in the dict, nothing else is added, and dict keys stay distinct |
| JsonDecode.InsertPlace | powatools/apigateway.py:35 | a repeated key keeps the position of its first occurrence and takes the new value, a new key goes at the end, and every other member keeps its place |
| JsonDecode.InsertKeeps | powatools/apigateway.py:35 | no member under another key is lost by an assignment |
| JsonDecode.DedupDistinct | powatools/apigateway.py:35 | an object with distinct keys is read with all members in order |
| JsonRoundTrip.StringRoundTrip | powatools/apigateway.py:56-58 | every string is read back from its escaped form, whatever follows the closing quote |
| JsonRoundTrip.IntTokenRoundTrip | powatools/apigateway.py:56-58 | an `int` token is read back as the same `int` |
| JsonRoundTrip.FloatTokenRoundTrip | powatools/apigateway.py:56-58 | a `float` token is read back as the same value in canonical form |
| JsonRoundTrip.ValueRoundTrip | powatools/apigateway.py:56-58 | any value's encoding, followed by a delimiter, is parsed back to the value as a client holds it |
| JsonRoundTrip.DecodeSerialize | powatools/apigateway.py:56-58 | for a value whose dicts have `str` keys, `json.loads(json.dumps(v, cls = DecimalEncoder))` is `v` with decimals replaced as `default` replaces them |
| ApiGatewayLaws.SerializeInjective | powatools/apigateway.py:56-58 | two values with the same body are the same value to a client |
| ApiGatewayLaws.DecimalToken | powatools/apigateway.py:7-12 | a decimal is read back as an `int` exactly when whole and as a `float` otherwise, with the same value |
| ApiGateway.Envelope | powatools/apigateway.py:52-62 | a value (nested within the recursion limit) gives a 200 with the JSON type whose body reads back as the value; a `RuntimeError` gives a 400 with the text type and the message as body; anything else escapes with its kind |
| ApiGateway.AddCors | powatools/apigateway.py:40-46 | the three CORS headers are set, other headers, status and body are unchanged, and an exception passes through |
| ApiGatewayLaws.CorsNamesMethod | powatools/apigateway.py:41-44 | the Allow-Methods value contains the declared method, and the content type survives |
| ApiGatewayLaws.StackApply | powatools/apigateway.py:15-63 | the decorated stack on an event is the three layers applied in turn |
| ApiGatewayLaws.StackWithoutQuerystring | powatools/apigateway.py:18-19 | the full stack answers an event without a query map with a 400, the fixed message, the text type and the CORS headers |
| ApiGatewayLaws.StackWithMissing | powatools/apigateway.py:24-25 | the full stack answers a missing parameter with a 400 carrying the report |
| ApiGatewayLaws.StackPassing | powatools/apigateway.py:26 | with all parameters present the stack returns the handler's outcome, enveloped and with the CORS headers |
| ApiGatewayLaws.NullQueryEscapes | powatools/apigateway.py:18-22 | a query map of `None` with a parameter required makes the stack raise `TypeError` |
| ApiGateway.CheckParametersIntended | powatools/apigateway.py:18-26 | an event with no usable query map fails with the querystring message; otherwise the result is the same as the original check |
| ApiGatewayLaws.IntendedQuerystringRequired | powatools/apigateway.py:18-19 | with the corrected check, every event without a query map gets the 400 |
| ApiGatewayLaws.IntendedAgrees | powatools/apigateway.py:18-26 | the corrected stack agrees with the original on every event that has a query map |
| ApiGatewayLaws.HelloWorldReply | tests/apigateway.py:9-22 | `{"hello": "world"}` gives a 200 with the JSON type, and the body reads back as that dict |
| ApiGatewayLaws.OopsReply | tests/apigateway.py:24-35 | `RuntimeError("oops")` gives a 400 with the text type and body `oops` |
| ApiGatewayLaws.CorsGetReply | tests/apigateway.py:37-50 | with `CORS_headers("GET")` the content type and Allow-Methods headers are present and the latter names `GET` |
| ApiGatewayLaws.DecimalReply | tests/apigateway.py:52-63 | `Decimal("1")` is read back as the `int` 1 and `Decimal("1.1")` as the `float` 1.1 |

## Left out

- `powatools/s3.py`: S3 object I/O, outside the request/response middleware.
- The Lambda `context` argument and `**kwargs` are not modelled. They are passed through untouched.
- `queryStringParameters` of a type other than a mapping or `None` is not modelled. Neither is a `parameters` argument that is not a list of strings.
- `isBase64Encoded` is modelled as a boolean only. Python's truthiness of other values is not.
- DecimalEncoder.Default: the conversion through a binary `float` is exact in the model. Rounding to 53 bits and `repr`'s shortest digits are not modelled, so the model states the decimal's value where Python may hold a nearby float. Overflow and underflow are not modelled either: `Decimal("1E+400")` becomes `inf`, which `json.dumps` writes as the non-JSON token `Infinity`, and `Decimal("1E-400")` becomes `0.0`, which `is_integer()` turns into the `int` 0, while the model keeps a `Float` of the exact value.
- Floats are printed in positional notation only. Python's exponent form (`1e-07`, `1e+16`), negative zero, NaN and infinities are not modelled.
- `DecimalEncoder`'s fallback to `JSONEncoder.default` for values other than decimals is not modelled. The value tree holds only JSON-encodable values and decimals, and its dicts have only `str` keys, so that `TypeError` cannot arise.
- JsonEncode.Serialize: the `indent = 2` line layout is not modelled. The body is written on one line with the separators ", " and ": ". The parsed value is the same, but the bytes differ.
- JsonEncode.EscapeChar: non-ASCII characters and DEL (U+007F) are written as they are. Python's default `ensure_ascii` writes them as `\uXXXX` escapes, which read back as the same text.
- ApiGateway.Loads: exponent tokens, `NaN`/`Infinity`, and `\u` escapes of surrogates are rejected by the model's parser, although `json.loads` accepts them. The round trip is proved only for text the model's encoder writes. Python's limit on the digits of an `int` is not modelled.
- ApiGateway.Loads: Python's recursion limit is not modelled. `json.loads` raises `RecursionError`, a subclass of `RuntimeError`, on text nested deeper than the limit, whether the text is well-formed or not (`"[" * 100000`). The model reads such text as it reads any other, so its `!r.Failure?` holds only within the limit.
- ApiGateway.LoadsBase64: the same recursion limit applies to its final `json.loads`, so it too can end in a `RuntimeError` on deeply nested text, which the model does not show.
- ApiGateway.ParsePostBody: through `json.loads`, a body nested beyond the recursion limit raises `RecursionError`. Under `wrap_apigateway` this becomes a 400 with the "maximum recursion depth exceeded" message. The model gives `Fault(JsonDecodeError)` or a value for such a body.
- ApiGateway.Envelope: `json.dumps` runs inside the `try`, so a returned value nested beyond the recursion limit raises `RecursionError` and is answered with a 400. An `int` of more than 4300 digits makes `json.dumps` raise `ValueError` under Python 3.11's int-to-string limit, and that error escapes the envelope. The model promises a 200 for every value.
- JsonRoundTrip.DecodeSerialize: dict keys are `str` only in the model. `json.dumps` also accepts `int`, `float`, `bool` and `None` keys and writes them as strings, so `{1: Decimal("2")}` reads back as `{"1": 2}`, and `{1: "a", "1": "b"}` is written with a repeated key that collapses when read back. Keys of any other type, a `Decimal` among them, make `json.dumps` raise `TypeError`, because `DecimalEncoder.default` is never consulted for keys, and that error escapes the envelope. The round trip is proved for `str`-keyed dicts only.
- Utf8.Decode: it stands for the strict decoder only. Error handlers such as `surrogateescape` are not used by the code.

## Findings

| source | as written | input that shows it | evidently intended | confidence | as-written member | corrected member |
|---|---|---|---|---|---|---|
| powatools/apigateway.py:18-22 | only the absence of the `queryStringParameters` key counts as "missing querystring"; a `None` value reaches `parameter not in None` | an API Gateway proxy event for a request with no query string, which carries `"queryStringParameters": null`, with one required parameter | such a request fails with "event is missing querystring" and is answered with a 400 | medium, not executed | ApiGatewayLaws.NullQueryEscapes | ApiGatewayLaws.IntendedQuerystringRequired |
