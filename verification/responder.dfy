/** The Responder service (`service/server2/f_server_2.py`). Each handler takes the
    request body (already decoded to text, or the parsed JSON object), the random draws
    of the keys it generates, and the library; it answers a JSON envelope. Every POST
    handler runs inside `try/except Exception`, so an ordinary error becomes
    `{'success': False, 'error': ...}` with status 200; a Rust panic is not caught. */
module Responder {
  import opened Wrappers
  import opened Python
  import opened Bytes
  import opened Envelope
  import opened Library
  import Hex
  import Dh
  import Ntru

  /** `health()`. */
  function Health(): (r: Response)
    ensures r.Json? && r.status == 200
    ensures r.fields.Keys == {"status"} && r.fields["status"] == Str("ok")
    ensures !IsSuccess(r) && !IsFailure(r)
  {
    Json(200, map["status" := Str("ok")])
  }

  /** The success envelope of the two Diffie-Hellman handlers. */
  function KeyAgreementFields(finalKey: string, publicKey: seq<byte>, privateKey: seq<byte>): (f: Fields)
    ensures "success" in f && f["success"] == Bool(true)
    ensures "final_key" in f && f["final_key"] == Str(finalKey)
    ensures "server_public_key" in f && f["server_public_key"] == Str(Hex.Encode(publicKey))
  {
    map[
      "success" := Bool(true),
      "final_key" := Str(finalKey),
      "server_public_key" := Str(Hex.Encode(publicKey)),
      "server2_private_key" := Str(Hex.Encode(privateKey))]
  }

  const KeyExchangeFailedPrefix := "Key exchange failed: "

  /** `receive_public_key()`: decodes the Initiator's public key from hex, draws its own
      key pair and answers the SHA-256 of the shared value with its own public key. */
  function ReceivePublicKey(body: string, x: Dh.Exponent, sha: Hash): (r: Response)
    ensures r.Json? && r.status == 200
    ensures IsSuccess(r) <==> Hex.Decode(body).Some?
    ensures !IsSuccess(r) ==>
      IsFailure(r) && r.fields["error"] == Str(KeyExchangeFailedPrefix + NotHexMessage)
    ensures IsSuccess(r) ==>
      var kp := Dh.GenerateDhKey(x);
      && "final_key" in r.fields && "server_public_key" in r.fields
      && r.fields["final_key"] == Str(HexDigest(sha, Dh.DeriveDhSharedKey(kp.privateKey, Hex.Decode(body).value)))
      && r.fields["server_public_key"].Str?
      && Hex.Decode(r.fields["server_public_key"].s) == Some(kp.publicKey)
  {
    var kp := Dh.GenerateDhKey(x);
    Hex.RoundTrip(kp.publicKey);
    Catch(AgreeDh(body, kp, sha), KeyExchangeFailedPrefix, 200)
  }

  /** The `try` body of `receive_public_key()` once the key pair is drawn. */
  function AgreeDh(body: string, kp: Dh.KeyPair, sha: Hash): (r: Outcome<Response>)
    ensures r.Returned? <==> Hex.Decode(body).Some?
    ensures r.Raised? ==> r == Fail(NotHexMessage)
    ensures r.Returned? ==>
      r.value == Json(200, KeyAgreementFields(
        HexDigest(sha, Dh.DeriveDhSharedKey(kp.privateKey, Hex.Decode(body).value)), kp.publicKey, kp.privateKey))
  {
    match FromHex(body)
    case Raised(e) => Raised(e)
    case Returned(peer) =>
      Returned(Json(200, KeyAgreementFields(HexDigest(sha, Dh.DeriveDhSharedKey(kp.privateKey, peer)), kp.publicKey, kp.privateKey)))
  }

  /** `receive_public_key_ell_curve()`: as `ReceivePublicKey` over X25519. A key that
      decodes to other than 32 bytes makes the extension panic, which the handler does
      not catch: no response is sent. */
  function ReceivePublicKeyEllCurve(body: string, secret: Key32, lib: Library): (r: Response)
    ensures Hex.Decode(body).None? ==> r == Json(200, FailureFields(NotHexMessage))
    ensures Hex.Decode(body).Some? && |Hex.Decode(body).value| != 32 ==> r == NoResponse
    ensures IsSuccess(r) <==> Hex.Decode(body).Some? && |Hex.Decode(body).value| == 32
    ensures IsSuccess(r) ==>
      r == Json(200, KeyAgreementFields(HexDigest(lib.sha, lib.x25519(secret, Hex.Decode(body).value)),
        lib.x25519Base(secret), secret))
  {
    Catch(AgreeEcdh(body, secret, lib), "", 200)
  }

  /** The `try` body of `receive_public_key_ell_curve()` once the secret is drawn. */
  function AgreeEcdh(body: string, secret: Key32, lib: Library): (r: Outcome<Response>)
    ensures Hex.Decode(body).None? ==> r == Fail(NotHexMessage)
    ensures Hex.Decode(body).Some? && |Hex.Decode(body).value| != 32 ==> r.Raised? && r.exception.Panic?
    ensures r.Returned? <==> Hex.Decode(body).Some? && |Hex.Decode(body).value| == 32
    ensures r.Returned? ==>
      r.value == Json(200, KeyAgreementFields(HexDigest(lib.sha, lib.x25519(secret, Hex.Decode(body).value)),
        lib.x25519Base(secret), secret))
  {
    var keys := GenerateEcdhKey(lib, secret);
    match FromHex(body)
    case Raised(e) => Raised(e)
    case Returned(peer) =>
      match DeriveEcdhSharedKey(lib, keys.0, peer)
      case Raised(e) => Raised(e)
      case Returned(shared) =>
        Returned(Json(200, KeyAgreementFields(HexDigest(lib.sha, shared), keys.1, keys.0)))
  }

  /** What the Initiator reads back from a success envelope of either agreement
      handler: the handler's own public key. */
  lemma KeyAgreementFieldsDecode(finalKey: string, publicKey: seq<byte>, privateKey: seq<byte>)
    ensures var f := KeyAgreementFields(finalKey, publicKey, privateKey);
      Hex.Decode(f["server_public_key"].s) == Some(publicKey)
  {
    Hex.RoundTrip(publicKey);
  }

  /** `str(KeyError(name))`: the key in quotes. */
  function KeyErrorMessage(name: string): string
  {
    "'" + name + "'"
  }

  /** The `BadRequest` raised by `request.get_json()` when the body is not JSON. */
  const BadJsonMessage := "400 Bad Request: The browser (or proxy) sent a request that this server could not understand."

  /** `encrypt()`: encrypts `message` under `public_key`, both read from the JSON body.
      The reply carries the ciphertext as hex and echoes the key, with no `success`
      field. A missing field is a `KeyError` and a non-string one a `TypeError`, both
      reported as failure; a key that does not parse makes the extension panic. */
  function Encrypt(request: Option<Fields>, lib: Library): (r: Response)
    ensures request.None? ==> IsFailure(r) && r.status == 200
    ensures request.Some? && "public_key" !in request.value ==>
      IsFailure(r) && r.fields["error"] == Str(KeyErrorMessage("public_key"))
    ensures request.Some? && "public_key" in request.value && "message" !in request.value ==>
      IsFailure(r) && r.fields["error"] == Str(KeyErrorMessage("message"))
    ensures request.Some? && "public_key" in request.value && "message" in request.value ==>
      var outcome := RsaEncrypt(lib, request.value["public_key"], request.value["message"]);
      && (outcome.Raised? && outcome.exception.Error? ==> IsFailure(r) && r.status == 200)
      && (outcome.Raised? && outcome.exception.Panic? ==> r == NoResponse)
      && (outcome.Returned? ==>
            r == Json(200, map[
              "encrypted_message" := Str(Hex.Encode(outcome.value)),
              "used_public_key" := request.value["public_key"]]))
    ensures r.Json? && "success" !in r.fields ==> "encrypted_message" in r.fields
  {
    Catch(
      match request
      case None => Fail(BadJsonMessage)
      case Some(data) =>
        if "public_key" !in data then Fail(KeyErrorMessage("public_key"))
        else if "message" !in data then Fail(KeyErrorMessage("message"))
        else
          match RsaEncrypt(lib, data["public_key"], data["message"])
          case Raised(e) => Raised(e)
          case Returned(c) =>
            Returned(Json(200, map[
              "encrypted_message" := Str(Hex.Encode(c)),
              "used_public_key" := data["public_key"]])),
      "", 200)
  }

  /** The success envelope of the two encapsulation handlers. */
  function EncapsulationFields(ciphertext: seq<byte>, sharedSecret: seq<byte>): (f: Fields)
    ensures "success" in f && f["success"] == Bool(true)
    ensures "ciphertext" in f && f["ciphertext"] == Str(Hex.Encode(ciphertext))
    ensures "shared_secret" in f && f["shared_secret"] == Str(Hex.Encode(sharedSecret))
  {
    map[
      "success" := Bool(true),
      "ciphertext" := Str(Hex.Encode(ciphertext)),
      "shared_secret" := Str(Hex.Encode(sharedSecret))]
  }

  /** Both the ciphertext and the shared secret can be read back from the envelope. */
  lemma EncapsulationFieldsDecode(ciphertext: seq<byte>, sharedSecret: seq<byte>)
    ensures var f := EncapsulationFields(ciphertext, sharedSecret);
      && f["ciphertext"].Str? && Hex.Decode(f["ciphertext"].s) == Some(ciphertext)
      && f["shared_secret"].Str? && Hex.Decode(f["shared_secret"].s) == Some(sharedSecret)
  {
    Hex.RoundTrip(ciphertext);
    Hex.RoundTrip(sharedSecret);
  }

  /** `kyber_encapsulate()`: encapsulates against the decoded public key and answers
      the ciphertext and the shared secret in hex. */
  function KyberEncapsulateHandler(body: string, coins: Coins, lib: Library): (r: Response)
    ensures r.Json? && r.status == 200
    ensures IsSuccess(r) <==>
      Hex.Decode(body).Some? && lib.kyberEncapsulate(Hex.Decode(body).value, coins).Ok?
    ensures !IsSuccess(r) ==> IsFailure(r) && r.fields.Keys == {"success", "error"}
    ensures IsSuccess(r) ==>
      var en := lib.kyberEncapsulate(Hex.Decode(body).value, coins).value;
      r.fields == EncapsulationFields(en.ciphertext, en.sharedSecret)
  {
    Catch(
      match FromHex(body)
      case Raised(e) => Raised(e)
      case Returned(publicKey) =>
        match KyberEncapsulate(lib, publicKey, coins)
        case Raised(e) => Raised(e)
        case Returned(en) => Returned(Json(200, EncapsulationFields(en.ciphertext, en.sharedSecret))),
      "", 200)
  }

  /** `ntru_encapsulate()`: as the Kyber handler, over the NTRU wrapper; a key of the
      wrong length is reported as failure. */
  function NtruEncapsulateHandler(body: string, entropy: Ntru.Entropy, lib: Library): (r: Response)
    ensures r.Json? && r.status == 200
    ensures IsSuccess(r) <==>
      Hex.Decode(body).Some? && Ntru.NtruEncapsulate(lib.ntru, Hex.Decode(body).value, entropy).Returned?
    ensures !IsSuccess(r) ==> IsFailure(r) && r.fields.Keys == {"success", "error"}
    ensures Hex.Decode(body).Some? && |Hex.Decode(body).value| != Ntru.CryptoPublicKeyBytes ==>
      r.fields["error"] == Str(Ntru.InvalidPublicKeyLength)
    ensures IsSuccess(r) ==>
      var en := lib.ntru.enc(Hex.Decode(body).value, entropy).value;
      r.fields == EncapsulationFields(en.ciphertext, en.sharedSecret)
  {
    Catch(
      match FromHex(body)
      case Raised(e) => Raised(e)
      case Returned(publicKey) =>
        match Ntru.NtruEncapsulate(lib.ntru, publicKey, entropy)
        case Raised(e) => Raised(e)
        case Returned(en) => Returned(Json(200, EncapsulationFields(en.0, en.1))),
      "", 200)
  }
}
