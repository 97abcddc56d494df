/** The Initiator service (`service/server1/f_server_1.py`). Each route draws its own
    keys, sends its half to the Responder through `transport` (the `requests.post` call
    with its body), and builds the JSON envelope from the reply. The Diffie-Hellman,
    Kyber and NTRU routes have no `try`, so whatever they raise reaches Flask; the ECDH
    and RSA routes catch ordinary exceptions. */
module Initiator {
  import opened Wrappers
  import opened Python
  import opened Bytes
  import opened Envelope
  import opened Library
  import Hex
  import Dh
  import Ntru

  /** `f'Server 2 error: {response.status_code}'`. */
  function ServerError(status: nat): string
  {
    "Server 2 error: " + StatusText(status)
  }

  /** A reply that arrived with a status other than 200. */
  predicate Refused(reply: Reply)
  {
    reply.Reply? && reply.status != 200
  }

  // ----- Diffie-Hellman -----

  /** The success envelope of the two Diffie-Hellman-style routes. */
  function AgreementFields(privateKey: seq<byte>, publicKey: seq<byte>, peer: Value, finalKey: string): (f: Fields)
    ensures "success" in f && f["success"] == Bool(true)
    ensures "final_key" in f && f["final_key"] == Str(finalKey)
    ensures "server2_public_key" in f && f["server2_public_key"] == peer
  {
    map[
      "success" := Bool(true),
      "server1_private_key" := Str(Hex.Encode(privateKey)),
      "server1_public_key" := Str(Hex.Encode(publicKey)),
      "server2_public_key" := peer,
      "final_key" := Str(finalKey)]
  }

  const PublicKeyField := "server_public_key"

  /** What `diffie_hellman_route()` does with the Responder's reply. */
  function DhFinish(kp: Dh.KeyPair, reply: Reply, sha: Hash): (r: Outcome<Response>)
    ensures Refused(reply) ==> r == Returned(Json(reply.status, FailureFields(ServerError(reply.status))))
    ensures Lacks(reply, PublicKeyField) ==>
      r == Returned(Json(500, FailureFields("No public key received from Server 2")))
    ensures HexAnswer(reply, PublicKeyField) ==>
      r == Returned(Json(200, AgreementFields(kp.privateKey, kp.publicKey, AnswerValue(reply, PublicKeyField),
        HexDigest(sha, Dh.DeriveDhSharedKey(kp.privateKey, AnswerBytes(reply, PublicKeyField))))))
    ensures !Refused(reply) && !Lacks(reply, PublicKeyField) && !HexAnswer(reply, PublicKeyField) ==>
      r.Raised? && r.exception.Error?
  {
    match reply
    case Unreachable(message) => Fail(message)
    case Reply(status, body) =>
      if status != 200 then Returned(Json(status, FailureFields(ServerError(status))))
      else
        match JsonBody(reply)
        case Raised(e) => Raised(e)
        case Returned(data) =>
          if PublicKeyField !in data then
            Returned(Json(500, FailureFields("No public key received from Server 2")))
          else
            match FromHexValue(data[PublicKeyField])
            case Raised(e) => Raised(e)
            case Returned(peer) =>
              var shared := Dh.DeriveDhSharedKey(kp.privateKey, peer);
              Returned(Json(200, AgreementFields(kp.privateKey, kp.publicKey, data[PublicKeyField], HexDigest(sha, shared))))
  }

  /** `diffie_hellman_route()` with its private exponent drawn as `x`. A non-200 reply
      is answered with the same status, a reply without `server_public_key` with 500,
      and a hex key with the SHA-256 of the shared value, echoing the peer's key. An
      unreachable Responder, a body that is not JSON or a key that is not hex makes the
      route raise, and Flask answers its 500 page. */
  function DiffieHellmanRoute(x: Dh.Exponent, transport: string -> Reply, sha: Hash): (r: Response)
    ensures var kp := Dh.GenerateDhKey(x);
      var reply := transport(Hex.Encode(kp.publicKey));
      && (Refused(reply) ==> r == Json(reply.status, FailureFields(ServerError(reply.status))))
      && (Lacks(reply, PublicKeyField) ==> r == Json(500, FailureFields("No public key received from Server 2")))
      && (HexAnswer(reply, PublicKeyField) ==>
            r == Json(200, AgreementFields(kp.privateKey, kp.publicKey, AnswerValue(reply, PublicKeyField),
              HexDigest(sha, Dh.DeriveDhSharedKey(kp.privateKey, AnswerBytes(reply, PublicKeyField))))))
      && (!Refused(reply) && !Lacks(reply, PublicKeyField) && !HexAnswer(reply, PublicKeyField) ==>
            r == InternalServerError)
  {
    var kp := Dh.GenerateDhKey(x);
    Uncaught(DhFinish(kp, transport(Hex.Encode(kp.publicKey)), sha))
  }

  // ----- Elliptic-curve Diffie-Hellman -----

  /** A hex public key that decodes to exactly the 32 bytes X25519 takes. */
  predicate KeyOf32(reply: Reply)
  {
    HexAnswer(reply, PublicKeyField) && |AnswerBytes(reply, PublicKeyField)| == 32
  }

  /** What `ecdh_route()` does inside its `try` with the Responder's reply. */
  function EcdhFinish(secret: Key32, reply: Reply, lib: Library): (r: Outcome<Response>)
    ensures Refused(reply) ==> r == Returned(Json(reply.status, FailureFields(ServerError(reply.status))))
    ensures Lacks(reply, PublicKeyField) ==>
      r == Returned(Json(500, FailureFields("No public key returned by Server 2")))
    ensures KeyOf32(reply) ==>
      r == Returned(Json(200, AgreementFields(secret, lib.x25519Base(secret), AnswerValue(reply, PublicKeyField),
        HexDigest(lib.sha, lib.x25519(secret, AnswerBytes(reply, PublicKeyField))))))
    ensures HexAnswer(reply, PublicKeyField) && !KeyOf32(reply) ==> r.Raised? && r.exception.Panic?
    ensures !Refused(reply) && !Lacks(reply, PublicKeyField) && !HexAnswer(reply, PublicKeyField) ==>
      r.Raised? && r.exception.Error?
    ensures reply.Unreachable? ==> r == Fail(reply.message)
  {
    match reply
    case Unreachable(message) => Fail(message)
    case Reply(status, body) =>
      if status != 200 then Returned(Json(status, FailureFields(ServerError(status))))
      else
        match JsonBody(reply)
        case Raised(e) => Raised(e)
        case Returned(data) =>
          if PublicKeyField !in data then
            Returned(Json(500, FailureFields("No public key returned by Server 2")))
          else
            match FromHexValue(data[PublicKeyField])
            case Raised(e) => Raised(e)
            case Returned(peer) =>
              match DeriveEcdhSharedKey(lib, secret, peer)
              case Raised(e) => Raised(e)
              case Returned(shared) =>
                Returned(Json(200, AgreementFields(secret, lib.x25519Base(secret), data[PublicKeyField],
                  HexDigest(lib.sha, shared))))
  }

  /** `ecdh_route()` with its 32 secret bytes drawn as `secret`. Ordinary exceptions
      (an unreachable Responder included) become a failure envelope with the default
      status 200; a peer key that is not 32 bytes makes the extension panic and no
      response is sent. */
  function EcdhRoute(secret: Key32, transport: string -> Reply, lib: Library): (r: Response)
    ensures var reply := transport(Hex.Encode(lib.x25519Base(secret)));
      && (Refused(reply) ==> r == Json(reply.status, FailureFields(ServerError(reply.status))))
      && (Lacks(reply, PublicKeyField) ==> r == Json(500, FailureFields("No public key returned by Server 2")))
      && (KeyOf32(reply) ==>
            r == Json(200, AgreementFields(secret, lib.x25519Base(secret), AnswerValue(reply, PublicKeyField),
              HexDigest(lib.sha, lib.x25519(secret, AnswerBytes(reply, PublicKeyField))))))
      && (HexAnswer(reply, PublicKeyField) && !KeyOf32(reply) ==> r == NoResponse)
      && (reply.Unreachable? ==> r == Json(200, FailureFields(reply.message)))
      && (!Refused(reply) && !Lacks(reply, PublicKeyField) && !HexAnswer(reply, PublicKeyField) ==>
            IsFailure(r) && r.status == 200)
  {
    Catch(EcdhFinish(secret, transport(Hex.Encode(lib.x25519Base(secret))), lib), "", 200)
  }

  // ----- RSA -----

  const DefaultMessage := "Hello, world!"

  /** `data.get('message', "Hello, world!")`. */
  function MessageOf(data: Fields): (v: Value)
    ensures "message" in data ==> v == data["message"]
    ensures "message" !in data ==> v == Str(DefaultMessage)
  {
    if "message" in data then data["message"] else Str(DefaultMessage)
  }

  /** The JSON body the RSA route posts to the Responder. */
  function EncryptRequest(message: Value, publicPem: string): Fields
  {
    map["message" := message, "public_key" := Str(publicPem)]
  }

  const CiphertextField := "encrypted_message"

  /** The peer's ciphertext decrypts under the route's private key. */
  predicate Decrypts(keys: RsaKeys, reply: Reply, lib: Library)
  {
    HexAnswer(reply, CiphertextField) && lib.rsaDecrypt(keys.privatePem, AnswerBytes(reply, CiphertextField)).Some?
  }

  function RsaFields(keys: RsaKeys, ciphertext: Value, message: string): (f: Fields)
    ensures "success" in f && f["success"] == Bool(true)
    ensures "decrypted_message" in f && f["decrypted_message"] == Str(message)
  {
    map[
      "success" := Bool(true),
      "encrypted_message" := ciphertext,
      "decrypted_message" := Str(message),
      "server1_public_key" := Str(keys.publicPem),
      "server1_private_key" := Str(keys.privatePem)]
  }

  /** What `rsa_route()` does inside its `try` with the Responder's reply. */
  function RsaFinish(keys: RsaKeys, reply: Reply, lib: Library): (r: Outcome<Response>)
    ensures Refused(reply) ==> r == Returned(Json(reply.status, FailureFields(ServerError(reply.status))))
    ensures Lacks(reply, CiphertextField) ==> r == Returned(Json(500, FailureFields("Encryption failed at Server 2")))
    ensures Decrypts(keys, reply, lib) ==>
      r == Returned(Json(200, RsaFields(keys, AnswerValue(reply, CiphertextField),
        lib.rsaDecrypt(keys.privatePem, AnswerBytes(reply, CiphertextField)).value)))
    ensures HexAnswer(reply, CiphertextField) && !Decrypts(keys, reply, lib) ==> r.Raised? && r.exception.Panic?
    ensures !Refused(reply) && !Lacks(reply, CiphertextField) && !HexAnswer(reply, CiphertextField) ==>
      r.Raised? && r.exception.Error?
    ensures reply.Unreachable? ==> r == Fail(reply.message)
  {
    match reply
    case Unreachable(message) => Fail(message)
    case Reply(status, body) =>
      if status != 200 then Returned(Json(status, FailureFields(ServerError(status))))
      else
        match JsonBody(reply)
        case Raised(e) => Raised(e)
        case Returned(data) =>
          if CiphertextField !in data then
            Returned(Json(500, FailureFields("Encryption failed at Server 2")))
          else
            match FromHexValue(data[CiphertextField])
            case Raised(e) => Raised(e)
            case Returned(c) =>
              match RsaDecrypt(lib, keys.privatePem, c)
              case Raised(e) => Raised(e)
              case Returned(m) => Returned(Json(200, RsaFields(keys, data[CiphertextField], m)))
  }

  /** The `BadRequest` raised by `request.get_json()` when the route's own request body
      is not JSON. */
  const BadJsonMessage := "400 Bad Request: The browser (or proxy) sent a request that this server could not understand."

  /** `rsa_route()` with its key pair drawn as `keys` and its own JSON request body
      `request` (`None` when it is not JSON). The message defaults to "Hello, world!".
      Ordinary exceptions become a failure envelope with status 500; a ciphertext that
      does not decrypt makes the extension panic and no response is sent. */
  function RsaRoute(keys: RsaKeys, request: Option<Fields>, transport: Fields -> Reply, lib: Library): (r: Response)
    ensures request.None? ==> r == Json(500, FailureFields(BadJsonMessage))
    ensures request.Some? ==>
      var reply := transport(EncryptRequest(MessageOf(request.value), keys.publicPem));
      && (Refused(reply) ==> r == Json(reply.status, FailureFields(ServerError(reply.status))))
      && (Lacks(reply, CiphertextField) ==> r == Json(500, FailureFields("Encryption failed at Server 2")))
      && (Decrypts(keys, reply, lib) ==>
            r == Json(200, RsaFields(keys, AnswerValue(reply, CiphertextField),
              lib.rsaDecrypt(keys.privatePem, AnswerBytes(reply, CiphertextField)).value)))
      && (HexAnswer(reply, CiphertextField) && !Decrypts(keys, reply, lib) ==> r == NoResponse)
      && (reply.Unreachable? ==> r == Json(500, FailureFields(reply.message)))
      && (!Refused(reply) && !Lacks(reply, CiphertextField) && !HexAnswer(reply, CiphertextField) ==>
            IsFailure(r) && r.status == 500)
  {
    Catch(
      match request
      case None => Fail(BadJsonMessage)
      case Some(data) => RsaFinish(keys, transport(EncryptRequest(MessageOf(data), keys.publicPem)), lib),
      "", 500)
  }

  // ----- Kyber and NTRU -----

  const CiphertextOf := "ciphertext"
  const ContactError := "Error contacting Server 2"

  /** The peer's ciphertext decapsulates under the Kyber secret key. */
  predicate KyberOpens(keys: KemKeys, reply: Reply, lib: Library)
  {
    HexAnswer(reply, CiphertextOf) && lib.kyberDecapsulate(AnswerBytes(reply, CiphertextOf), keys.secretKey).Ok?
  }

  function KyberFields(keys: KemKeys, ciphertext: Value, sharedSecret: seq<byte>): (f: Fields)
    ensures "success" in f && f["success"] == Bool(true)
    ensures "shared_secret" in f && f["shared_secret"] == Str(Hex.Encode(sharedSecret))
    ensures "final_key" !in f
  {
    map[
      "success" := Bool(true),
      "server1_public_key" := Str(Hex.Encode(keys.publicKey)),
      "server1_secret_key" := Str(Hex.Encode(keys.secretKey)),
      "server2_ciphertext" := ciphertext,
      "shared_secret" := Str(Hex.Encode(sharedSecret))]
  }

  /** What `kyber_route()` does with the Responder's reply. */
  function KyberFinish(keys: KemKeys, reply: Reply, lib: Library): (r: Outcome<Response>)
    ensures Refused(reply) ==> r == Returned(Json(reply.status, FailureFields(ContactError)))
    ensures Lacks(reply, CiphertextOf) ==>
      r == Returned(Json(200, FailureFields("Kyber encapsulation failed at Server 2")))
    ensures KyberOpens(keys, reply, lib) ==>
      r == Returned(Json(200, KyberFields(keys, AnswerValue(reply, CiphertextOf),
        lib.kyberDecapsulate(AnswerBytes(reply, CiphertextOf), keys.secretKey).value)))
    ensures !Refused(reply) && !Lacks(reply, CiphertextOf) && !KyberOpens(keys, reply, lib) ==>
      r.Raised? && r.exception.Error?
  {
    match reply
    case Unreachable(message) => Fail(message)
    case Reply(status, body) =>
      if status != 200 then Returned(Json(status, FailureFields(ContactError)))
      else
        match JsonBody(reply)
        case Raised(e) => Raised(e)
        case Returned(data) =>
          if CiphertextOf !in data then
            Returned(Json(200, FailureFields("Kyber encapsulation failed at Server 2")))
          else
            match FromHexValue(data[CiphertextOf])
            case Raised(e) => Raised(e)
            case Returned(c) =>
              match KyberDecapsulate(lib, c, keys.secretKey)
              case Raised(e) => Raised(e)
              case Returned(ss) => Returned(Json(200, KyberFields(keys, data[CiphertextOf], ss)))
  }

  /** `kyber_route()` with the key generator's randomness drawn as `coins`. A non-200
      reply keeps its status; a reply without `ciphertext` is a failure with the
      default status 200, unlike the NTRU route. On success the envelope carries the
      shared secret itself and no `final_key`. */
  function KyberRoute(coins: Coins, transport: string -> Reply, lib: Library): (r: Response)
    ensures lib.kyberKeypair(coins).Err? ==> r == InternalServerError
    ensures lib.kyberKeypair(coins).Ok? ==>
      var keys := lib.kyberKeypair(coins).value;
      var reply := transport(Hex.Encode(keys.publicKey));
      && (Refused(reply) ==> r == Json(reply.status, FailureFields(ContactError)))
      && (Lacks(reply, CiphertextOf) ==> r == Json(200, FailureFields("Kyber encapsulation failed at Server 2")))
      && (KyberOpens(keys, reply, lib) ==>
            r == Json(200, KyberFields(keys, AnswerValue(reply, CiphertextOf),
              lib.kyberDecapsulate(AnswerBytes(reply, CiphertextOf), keys.secretKey).value)))
      && (!Refused(reply) && !Lacks(reply, CiphertextOf) && !KyberOpens(keys, reply, lib) ==>
            r == InternalServerError)
  {
    Uncaught(
      match KyberKeygen(lib, coins)
      case Raised(e) => Raised(e)
      case Returned(keys) => KyberFinish(keys, transport(Hex.Encode(keys.publicKey)), lib))
  }

  /** pyo3's `TypeError` when a Python list is passed where a Rust `&[u8]` is expected:
      only a `bytes` object converts. */
  function ListForSlice(name: string): string
  {
    "argument '" + name + "': 'list' object cannot be converted to 'PyBytes'"
  }

  /** What `ntru_route()` does with the Responder's reply, as written: the private key
      reaches `ntru_decapsulate` as the list `ntru_generate_keypair` returned. */
  function NtruFinishAsWritten(keys: (seq<byte>, seq<byte>), reply: Reply): (r: Outcome<Response>)
    ensures Refused(reply) ==> r == Returned(Json(reply.status, FailureFields(ContactError)))
    ensures Lacks(reply, CiphertextOf) ==>
      r == Returned(Json(500, FailureFields("NTRU encapsulation failed at Server 2")))
    ensures HexAnswer(reply, CiphertextOf) ==> r == Fail(ListForSlice("private_key"))
    ensures !Refused(reply) && !Lacks(reply, CiphertextOf) ==> r.Raised? && r.exception.Error?
  {
    match reply
    case Unreachable(message) => Fail(message)
    case Reply(status, body) =>
      if status != 200 then Returned(Json(status, FailureFields(ContactError)))
      else
        match JsonBody(reply)
        case Raised(e) => Raised(e)
        case Returned(data) =>
          if CiphertextOf !in data then
            Returned(Json(500, FailureFields("NTRU encapsulation failed at Server 2")))
          else
            match FromHexValue(data[CiphertextOf])
            case Raised(e) => Raised(e)
            case Returned(c) => Fail(ListForSlice("private_key"))
  }

  /** `ntru_route()` as written, with the 48 seed bytes of key generation drawn as
      `entropy`. It never releases a key: whenever the Responder answers 200 with a
      `ciphertext`, the route raises and Flask answers 500. */
  function NtruRouteAsWritten(entropy: Ntru.Entropy, transport: string -> Reply, lib: Library): (r: Response)
    ensures !IsSuccess(r)
    ensures lib.ntru.keypair(entropy).Err? ==> r == InternalServerError
    ensures lib.ntru.keypair(entropy).Ok? ==>
      var reply := transport(Hex.Encode(lib.ntru.keypair(entropy).value.publicKey));
      && (Refused(reply) ==> r == Json(reply.status, FailureFields(ContactError)))
      && (Lacks(reply, CiphertextOf) ==> r == Json(500, FailureFields("NTRU encapsulation failed at Server 2")))
      && (!Refused(reply) && !Lacks(reply, CiphertextOf) ==> r == InternalServerError)
  {
    Uncaught(
      match Ntru.NtruGenerateKeypair(lib.ntru, entropy)
      case Raised(e) => Raised(e)
      case Returned(keys) => NtruFinishAsWritten(keys, transport(Hex.Encode(keys.0))))
  }

  /** The peer's ciphertext decapsulates under the NTRU secret key. */
  predicate NtruOpens(secretKey: seq<byte>, reply: Reply, lib: Library)
  {
    HexAnswer(reply, CiphertextOf) && Ntru.NtruDecapsulate(lib.ntru, secretKey, AnswerBytes(reply, CiphertextOf)).Returned?
  }

  function NtruFields(keys: (seq<byte>, seq<byte>), ciphertext: Value, sharedSecret: seq<byte>, sha: Hash): (f: Fields)
    ensures "success" in f && f["success"] == Bool(true)
    ensures "shared_secret" in f && f["shared_secret"] == Str(Hex.Encode(sharedSecret))
    ensures "final_key" in f && f["final_key"] == Str(HexDigest(sha, sharedSecret))
  {
    map[
      "success" := Bool(true),
      "server1_public_key" := Str(Hex.Encode(keys.0)),
      "server1_private_key" := Str(Hex.Encode(keys.1)),
      "server2_ciphertext" := ciphertext,
      "shared_secret" := Str(Hex.Encode(sharedSecret)),
      "final_key" := Str(HexDigest(sha, sharedSecret))]
  }

  /** What `ntru_route()` does with the Responder's reply when the private key is
      passed as `bytes`. */
  function NtruFinish(keys: (seq<byte>, seq<byte>), reply: Reply, lib: Library): (r: Outcome<Response>)
    ensures Refused(reply) ==> r == Returned(Json(reply.status, FailureFields(ContactError)))
    ensures Lacks(reply, CiphertextOf) ==>
      r == Returned(Json(500, FailureFields("NTRU encapsulation failed at Server 2")))
    ensures NtruOpens(keys.1, reply, lib) ==>
      r == Returned(Json(200, NtruFields(keys, AnswerValue(reply, CiphertextOf),
        Ntru.NtruDecapsulate(lib.ntru, keys.1, AnswerBytes(reply, CiphertextOf)).value, lib.sha)))
    ensures !Refused(reply) && !Lacks(reply, CiphertextOf) && !NtruOpens(keys.1, reply, lib) ==>
      r.Raised? && r.exception.Error?
  {
    match reply
    case Unreachable(message) => Fail(message)
    case Reply(status, body) =>
      if status != 200 then Returned(Json(status, FailureFields(ContactError)))
      else
        match JsonBody(reply)
        case Raised(e) => Raised(e)
        case Returned(data) =>
          if CiphertextOf !in data then
            Returned(Json(500, FailureFields("NTRU encapsulation failed at Server 2")))
          else
            match FromHexValue(data[CiphertextOf])
            case Raised(e) => Raised(e)
            case Returned(c) =>
              match Ntru.NtruDecapsulate(lib.ntru, keys.1, c)
              case Raised(e) => Raised(e)
              case Returned(ss) => Returned(Json(200, NtruFields(keys, data[CiphertextOf], ss, lib.sha)))
  }

  /** `ntru_route()` with the private key passed as `bytes(ntru_private_key)`. A reply
      without `ciphertext` is a failure with status 500; on success the envelope
      carries both the shared secret and its SHA-256 as `final_key`. */
  function NtruRoute(entropy: Ntru.Entropy, transport: string -> Reply, lib: Library): (r: Response)
    ensures lib.ntru.keypair(entropy).Err? ==> r == InternalServerError
    ensures lib.ntru.keypair(entropy).Ok? ==>
      var kp := lib.ntru.keypair(entropy).value;
      var keys: (seq<byte>, seq<byte>) := (kp.publicKey, kp.secretKey);
      var reply := transport(Hex.Encode(kp.publicKey));
      && (Refused(reply) ==> r == Json(reply.status, FailureFields(ContactError)))
      && (Lacks(reply, CiphertextOf) ==> r == Json(500, FailureFields("NTRU encapsulation failed at Server 2")))
      && (NtruOpens(kp.secretKey, reply, lib) ==>
            r == Json(200, NtruFields(keys, AnswerValue(reply, CiphertextOf),
              Ntru.NtruDecapsulate(lib.ntru, kp.secretKey, AnswerBytes(reply, CiphertextOf)).value, lib.sha)))
      && (!Refused(reply) && !Lacks(reply, CiphertextOf) && !NtruOpens(kp.secretKey, reply, lib) ==>
            r == InternalServerError)
  {
    Uncaught(
      match Ntru.NtruGenerateKeypair(lib.ntru, entropy)
      case Raised(e) => Raised(e)
      case Returned(keys) => NtruFinish(keys, transport(Hex.Encode(keys.0)), lib))
  }
}
