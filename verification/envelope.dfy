/** The shape of what the Flask handlers return and what `requests` hands back to the
    calling service, the hash that turns a shared value into the final key, and the
    Python idioms the handlers share (`bytes.fromhex` on a JSON field, `try/except`). */
module Envelope {
  import opened Wrappers
  import opened Python
  import opened Bytes
  import Hex
  import Decimal

  /** A JSON value as the handlers put it in, or find it in, a response body. */
  datatype Value = Str(s: string) | Bool(b: bool) | Int(i: int) | Null

  type Fields = map<string, Value>

  /** What a handler produces. */
  datatype Response =
    | Json(status: nat, fields: Fields)  // `return jsonify(fields), status` (status 200 when omitted)
    | InternalServerError                // an `Exception` left the handler: Flask's HTML 500 page
    | NoResponse                         // a `PanicException` left the handler: the development
                                         // server drops the connection without answering

  /** What `requests.post(...)` gives the caller. */
  datatype Reply =
    | Reply(status: nat, body: Option<Fields>)  // `body == None`: `response.json()` raises
    | Unreachable(message: string)              // `requests` raised a `ConnectionError`

  /** SHA-256 (FIPS 180-4) is left opaque: a 32-byte digest of any message. */
  type Digest = d: seq<byte> | |d| == 32 witness seq(32, _ => 0)
  type Hash = seq<byte> -> Digest

  /** `hashlib.sha256(data).hexdigest()`. */
  function HexDigest(sha: Hash, data: seq<byte>): (h: string)
    ensures |h| == 64
    ensures forall i :: 0 <= i < |h| ==> Hex.IsLowerHex(h[i])
    ensures Hex.Decode(h) == Some(sha(data))
  {
    Hex.RoundTrip(sha(data));
    Hex.Encode(sha(data))
  }

  /** `{'success': False, 'error': error}`. */
  function FailureFields(error: string): (f: Fields)
    ensures f.Keys == {"success", "error"}
    ensures f["success"] == Bool(false) && f["error"] == Str(error)
  {
    map["success" := Bool(false), "error" := Str(error)]
  }

  /** A JSON envelope reporting failure: `success` is false and no key is released. */
  predicate IsFailure(r: Response)
  {
    && r.Json?
    && "success" in r.fields && r.fields["success"] == Bool(false)
    && "error" in r.fields
    && "final_key" !in r.fields && "shared_secret" !in r.fields
  }

  /** A JSON envelope reporting success with status 200. */
  predicate IsSuccess(r: Response)
  {
    r.Json? && r.status == 200 && "success" in r.fields && r.fields["success"] == Bool(true)
  }

  lemma FailureFieldsFail(status: nat, error: string)
    ensures IsFailure(Json(status, FailureFields(error)))
    ensures !IsSuccess(Json(status, FailureFields(error)))
  {
  }

  /** The text `f'{status}'` puts into an error message. */
  function StatusText(status: nat): string
  {
    Decimal.ToDecimal(status)
  }

  /** `try: <body> except Exception as e: return jsonify({'success': False, 'error':
      prefix + str(e)}), status`. A panic is not an `Exception` and is not caught. */
  function Catch(body: Outcome<Response>, prefix: string, status: nat): (r: Response)
    ensures body.Returned? ==> r == body.value
    ensures body.Raised? && body.exception.Error? ==> IsFailure(r) && r.status == status
    ensures body.Raised? && body.exception.Error? ==> r.fields["error"] == Str(prefix + body.exception.message)
    ensures body.Raised? && body.exception.Error? && prefix == "" ==> r == Json(status, FailureFields(body.exception.message))
    ensures body.Raised? && body.exception.Panic? ==> r == NoResponse
  {
    match body
    case Returned(resp) => resp
    case Raised(Error(message)) =>
      assert prefix == "" ==> prefix + message == message;
      Json(status, FailureFields(prefix + message))
    case Raised(Panic(_)) => NoResponse
  }

  /** A handler body without `try`: whatever it raises reaches the framework. */
  function Uncaught(body: Outcome<Response>): (r: Response)
    ensures body.Returned? ==> r == body.value
    ensures body.Raised? && body.exception.Error? ==> r == InternalServerError
    ensures body.Raised? && body.exception.Panic? ==> r == NoResponse
  {
    match body
    case Returned(resp) => resp
    case Raised(Error(_)) => InternalServerError
    case Raised(Panic(_)) => NoResponse
  }

  /** `try/except Exception` changes a handler's outcome only for an ordinary
      exception, which it answers with a failure envelope at `status` whose error text
      starts with `prefix`; a returned response and a panic come out exactly as they
      would without the `try`. */
  lemma CatchOnlyHandlesErrors(body: Outcome<Response>, prefix: string, status: nat)
    ensures Catch(body, prefix, status) != Uncaught(body) <==> body.Raised? && body.exception.Error?
    ensures body.Raised? && body.exception.Error? ==>
      && IsFailure(Catch(body, prefix, status))
      && Catch(body, prefix, status).status == status
      && Catch(body, prefix, status).fields["error"].Str?
      && prefix <= Catch(body, prefix, status).fields["error"].s
  {
  }

  /** The message `requests` reports when the peer closes the connection unanswered. */
  const ConnectionAborted := "('Connection aborted.', RemoteDisconnected('Remote end closed connection without response'))"

  /** A handler's response as the calling service's `requests` sees it. */
  function AsReply(r: Response): (reply: Reply)
    ensures r.Json? ==> reply == Reply(r.status, Some(r.fields))
    ensures r.InternalServerError? ==> reply.Reply? && reply.status == 500 && reply.body.None?
    ensures r.NoResponse? ==> reply.Unreachable?
  {
    match r
    case Json(status, fields) => Reply(status, Some(fields))
    case InternalServerError => Reply(500, None)
    case NoResponse => Unreachable(ConnectionAborted)
  }

  /** The `JSONDecodeError` text for a body that is not JSON. */
  const JsonDecodeMessage := "Expecting value: line 1 column 1 (char 0)"

  /** `response.json()` on a reply that arrived. */
  function JsonBody(reply: Reply): (r: Outcome<Fields>)
    requires reply.Reply?
    ensures r.Returned? <==> reply.body.Some?
    ensures r.Returned? ==> r.value == reply.body.value
    ensures r.Raised? ==> r.exception.Error?
  {
    match reply.body
    case Some(fields) => Returned(fields)
    case None => Fail(JsonDecodeMessage)
  }

  /** `response.json()` on what a handler answered gives back exactly the fields it
      passed to `jsonify`, with its status; Flask's 500 page is not JSON; and only a
      panic leaves the caller without a reply. */
  lemma JsonRoundTrip(r: Response)
    ensures r.Json? ==> AsReply(r).Reply? && AsReply(r).status == r.status && JsonBody(AsReply(r)) == Returned(r.fields)
    ensures r.InternalServerError? ==> AsReply(r).Reply? && JsonBody(AsReply(r)).Raised?
    ensures AsReply(r).Unreachable? <==> r.NoResponse?
  {
  }

  /** Seen from the calling service, a handler without `try` answers JSON only when its
      body returned JSON, while `try/except Exception` also answers JSON for every
      ordinary exception; with or without it, a panic drops the connection. */
  lemma HandlerAsSeenByCaller(body: Outcome<Response>, prefix: string, status: nat)
    ensures AsReply(Uncaught(body)).Reply? && AsReply(Uncaught(body)).body.Some?
      <==> body.Returned? && body.value.Json?
    ensures AsReply(Catch(body, prefix, status)).Reply? && AsReply(Catch(body, prefix, status)).body.Some?
      <==> (body.Returned? && body.value.Json?) || (body.Raised? && body.exception.Error?)
    ensures AsReply(Uncaught(body)).Unreachable? <==> AsReply(Catch(body, prefix, status)).Unreachable?
    ensures AsReply(Uncaught(body)).Unreachable? <==>
      (body.Raised? && body.exception.Panic?) || (body.Returned? && body.value.NoResponse?)
  {
  }

  const NotStrMessage := "fromhex() argument must be str"
  const NotHexMessage := "non-hexadecimal number found in fromhex() arg"

  /** `bytes.fromhex(value)` on a value taken from a JSON body: a `TypeError` unless it
      is a string, a `ValueError` unless it is well-formed hex. */
  function FromHexValue(v: Value): (r: Outcome<seq<byte>>)
    ensures r.Returned? <==> v.Str? && Hex.Decode(v.s).Some?
    ensures r.Returned? ==> r.value == Hex.Decode(v.s).value
    ensures r.Raised? ==> r.exception.Error?
  {
    if !v.Str? then Fail(NotStrMessage) else FromHex(v.s)
  }

  /** Bytes a peer sent as `.hex()` come back from `bytes.fromhex()` unchanged, and a
      lower-case hex string that decodes is the `.hex()` of what it decodes to. */
  lemma FromHexValueRoundTrip(bs: seq<byte>, v: Value)
    ensures FromHexValue(Str(Hex.Encode(bs))) == Returned(bs)
    ensures v.Str? && (forall i :: 0 <= i < |v.s| ==> Hex.IsLowerHex(v.s[i])) && FromHexValue(v).Returned?
      ==> v == Str(Hex.Encode(FromHexValue(v).value))
  {
    Hex.RoundTrip(bs);
    if v.Str? && (forall i :: 0 <= i < |v.s| ==> Hex.IsLowerHex(v.s[i])) && FromHexValue(v).Returned? {
      Hex.CanonicalRoundTrip(v.s);
    }
  }

  /** `bytes.fromhex(s)` on a string. */
  function FromHex(s: string): (r: Outcome<seq<byte>>)
    ensures r.Returned? <==> Hex.Decode(s).Some?
    ensures r.Returned? ==> r.value == Hex.Decode(s).value
    ensures r.Raised? ==> r.exception.Error?
  {
    match Hex.Decode(s)
    case Some(bs) => Returned(bs)
    case None => Fail(NotHexMessage)
  }

  /** The reply arrived with status 200, a JSON body, and `field` in it. */
  predicate Answered(reply: Reply, field: string)
  {
    reply.Reply? && reply.status == 200 && reply.body.Some? && field in reply.body.value
  }

  /** The value of `field` in an answered reply. */
  function AnswerValue(reply: Reply, field: string): Value
    requires Answered(reply, field)
  {
    reply.body.value[field]
  }

  /** The reply answered `field` with a string `bytes.fromhex` accepts. */
  predicate HexAnswer(reply: Reply, field: string)
  {
    Answered(reply, field) && FromHexValue(AnswerValue(reply, field)).Returned?
  }

  /** The bytes of a hex answer. */
  function AnswerBytes(reply: Reply, field: string): seq<byte>
    requires HexAnswer(reply, field)
  {
    Hex.Decode(AnswerValue(reply, field).s).value
  }

  /** The reply arrived with status 200 and a JSON body lacking `field`. */
  predicate Lacks(reply: Reply, field: string)
  {
    reply.Reply? && reply.status == 200 && reply.body.Some? && field !in reply.body.value
  }
}
